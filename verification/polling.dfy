/** Retrying against a deadline: `expect.poll()` and `toPass()`
    (crates/ferridriver-expect/src/builder.rs:166-221, 262-310). */
module Polling {
  import opened Json

  /** Instants and durations are in nanoseconds, configured intervals in milliseconds. */
  const MILLISECOND := 1_000_000

  const DEFAULT_INTERVAL := 1000

  /** What the run meets: when it starts, what attempt k yields, how long attempt k takes, and by how much
      the k-th sleep overshoots. The clock never runs backwards. */
  datatype Env<!T> = Env(start: nat, value: nat -> T, takes: nat -> nat, late: nat -> nat)

  /** The process around one polling loop. */
  class Host<T> {
    const env: Env<T>
    var now: nat
    var calls: nat
    var requested: seq<nat>

    constructor (env: Env<T>)
      ensures this.env == env && now == env.start && calls == 0 && requested == []
    {
      this.env := env;
      now, calls, requested := env.start, 0, [];
    }

    method Attempt() returns (value: T)
      modifies this
      ensures value == env.value(old(calls)) && now == old(now) + env.takes(old(calls))
      ensures calls == old(calls) + 1 && requested == old(requested)
    {
      value := env.value(calls);
      now := now + env.takes(calls);
      calls := calls + 1;
    }

    method Sleep(duration: nat)
      modifies this
      ensures now == old(now) + duration + env.late(|old(requested)|)
      ensures calls == old(calls) && requested == old(requested) + [duration]
    {
      now := now + duration + env.late(|requested|);
      requested := requested + [duration];
    }
  }

  // ---------------------------------------------------------------- the intended run

  /** The interval after attempt k: the k-th configured one, then the last one for ever. */
  function IntervalAt(intervals: seq<nat>, k: nat): nat {
    if k < |intervals| then intervals[k]
    else if intervals != [] then intervals[|intervals| - 1]
    else DEFAULT_INTERVAL
  }

  datatype Plan = Plan(timeout: nat, intervals: seq<nat>)

  function Deadline<T>(env: Env<T>, plan: Plan): nat {
    env.start + plan.timeout
  }

  /** The sleep after an attempt that ended at `end`, clamped to what is left until the deadline. */
  function Clamped(interval: nat, end: nat, deadline: nat): nat {
    if end >= deadline then 0
    else if interval * MILLISECOND < deadline - end then interval * MILLISECOND
    else deadline - end
  }

  function StartOf<T>(env: Env<T>, plan: Plan, k: nat): (at: nat)
    decreases k, 0
  {
    if k == 0 then env.start
    else EndOf(env, plan, k - 1) + SleepAfter(env, plan, k - 1) + env.late(k - 1)
  }

  function EndOf<T>(env: Env<T>, plan: Plan, k: nat): (at: nat)
    decreases k, 1
  {
    StartOf(env, plan, k) + env.takes(k)
  }

  function SleepAfter<T>(env: Env<T>, plan: Plan, k: nat): nat
    decreases k, 2
  {
    Clamped(IntervalAt(plan.intervals, k), EndOf(env, plan, k), Deadline(env, plan))
  }

  /** Attempts 0 to k - 1 failed, each with time left. */
  ghost predicate RetriedUntil<T(!new)>(env: Env<T>, plan: Plan, good: T -> bool, k: nat) {
    forall j :: 0 <= j < k ==> !good(env.value(j)) && EndOf(env, plan, j) < Deadline(env, plan)
  }

  /** Attempt k is the last: it is good, or it is not and there is no time left. */
  ghost predicate EndsAt<T(!new)>(env: Env<T>, plan: Plan, good: T -> bool, k: nat, ok: bool) {
    RetriedUntil(env, plan, good, k) &&
    (if ok then good(env.value(k)) else !good(env.value(k)) && EndOf(env, plan, k) >= Deadline(env, plan))
  }

  /** Some attempt is the last. The source's loop returns exactly then: otherwise every attempt fails with
      time left, which takes intervals of 0 and a clock that stands still. */
  ghost predicate Ends<T(!new)>(env: Env<T>, plan: Plan, good: T -> bool) {
    exists k: nat, ok: bool :: EndsAt(env, plan, good, k, ok)
  }

  lemma RetriesBeforeEnd<T(!new)>(env: Env<T>, plan: Plan, good: T -> bool, k: nat, last: nat, ok: bool)
    requires RetriedUntil(env, plan, good, k) && EndsAt(env, plan, good, last, ok)
    ensures k <= last
  {}

  ghost predicate Asked<T>(env: Env<T>, plan: Plan, sleeps: seq<nat>) {
    forall k :: 0 <= k < |sleeps| ==> sleeps[k] == SleepAfter(env, plan, k)
  }

  /** Between two rounds: k attempts failed in time, each followed by its sleep. */
  ghost predicate Waited<T(!new)>(env: Env<T>, plan: Plan, good: T -> bool, now: nat, k: nat, sleeps: seq<nat>) {
    now == StartOf(env, plan, k) && |sleeps| == k && RetriedUntil(env, plan, good, k) && Asked(env, plan, sleeps)
  }

  lemma RoundWaits<T(!new)>(env: Env<T>, plan: Plan, good: T -> bool, k: nat, sleeps: seq<nat>)
    requires Waited(env, plan, good, StartOf(env, plan, k), k, sleeps)
    requires !good(env.value(k)) && EndOf(env, plan, k) < Deadline(env, plan)
    ensures var sleep := SleepAfter(env, plan, k);
            Waited(env, plan, good, EndOf(env, plan, k) + sleep + env.late(k), k + 1, sleeps + [sleep])
  {}

  // ---------------------------------------------------------------- the loops

  lemma NothingWaited<T(!new)>(env: Env<T>, plan: Plan, good: T -> bool)
    ensures Waited(env, plan, good, env.start, 0, [])
  {}

  /** The run ends with attempt k. */
  lemma WaitedEnds<T(!new)>(env: Env<T>, plan: Plan, good: T -> bool, now: nat, k: nat, sleeps: seq<nat>, ok: bool)
    requires Waited(env, plan, good, now, k, sleeps)
    requires if ok then good(env.value(k)) else !good(env.value(k)) && EndOf(env, plan, k) >= Deadline(env, plan)
    ensures |sleeps| == k && EndsAt(env, plan, good, k, ok) && Asked(env, plan, sleeps)
  {}

  /** The part the three loops share, after attempt k failed: sleep what the interval and the deadline allow,
      or report that the deadline has passed. */
  method SleepOrExpire<T(!new)>(host: Host<T>, intervals: seq<nat>, k: nat, deadline: nat, ghost plan: Plan,
      ghost good: T -> bool)
    returns (expired: bool)
    requires plan.intervals == intervals && deadline == Deadline(host.env, plan) && !good(host.env.value(k))
    requires host.now == EndOf(host.env, plan, k) && host.calls == k + 1
    requires Waited(host.env, plan, good, StartOf(host.env, plan, k), k, host.requested)
    modifies host
    ensures host.calls == k + 1 && (expired <==> EndOf(host.env, plan, k) >= deadline)
    ensures expired ==> host.requested == old(host.requested)
    ensures !expired ==> Waited(host.env, plan, good, host.now, k + 1, host.requested)
  {
    var interval := if k < |intervals| then intervals[k]
                    else if intervals != [] then intervals[|intervals| - 1]
                    else DEFAULT_INTERVAL;
    var now := host.now;
    expired := now >= deadline;
    if !expired {
      var sleep := if interval * MILLISECOND < deadline - now then interval * MILLISECOND else deadline - now;
      RoundWaits(host.env, plan, good, k, host.requested);
      host.Sleep(sleep);
    }
  }

  ghost function Equals<T>(expected: T): T -> bool {
    t => t == expected
  }

  method ToEqual<T(==, !new)>(host: Host<T>, expected: T, timeout: nat, intervals: seq<nat>)
    returns (result: Result<(), T>)
    requires host.now == host.env.start && host.calls == 0 && host.requested == []
    requires Ends(host.env, Plan(timeout, intervals), Equals(expected))
    modifies host
    ensures host.calls > 0 && |host.requested| == host.calls - 1
    ensures EndsAt(host.env, Plan(timeout, intervals), Equals(expected), host.calls - 1, result.Ok?)
    ensures result.Err? ==> result.error == host.env.value(host.calls - 1)
    ensures Asked(host.env, Plan(timeout, intervals), host.requested)
  {
    ghost var plan, good := Plan(timeout, intervals), Equals(expected);
    ghost var last: nat, ok: bool :| EndsAt(host.env, plan, good, last, ok);
    var deadline := host.now + timeout;
    var intervalIdx := 0;
    NothingWaited(host.env, plan, good);
    while true
      invariant intervalIdx == host.calls <= last && Waited(host.env, plan, good, host.now, host.calls, host.requested)
      decreases last - host.calls
    {
      ghost var start := host.now;
      var actual := host.Attempt();
      if actual == expected {
        WaitedEnds(host.env, plan, good, start, intervalIdx, host.requested, true);
        return Ok(());
      }
      var expired := SleepOrExpire(host, intervals, intervalIdx, deadline, plan, good);
      if expired {
        WaitedEnds(host.env, plan, good, start, intervalIdx, host.requested, false);
        return Err(actual);
      }
      intervalIdx := intervalIdx + 1;
      RetriesBeforeEnd(host.env, plan, good, host.calls, last, ok);
    }
  }

  method ToSatisfy<T(!new)>(host: Host<T>, accepts: T -> bool, timeout: nat, intervals: seq<nat>)
    returns (result: Result<(), T>)
    requires host.now == host.env.start && host.calls == 0 && host.requested == []
    requires Ends(host.env, Plan(timeout, intervals), accepts)
    modifies host
    ensures host.calls > 0 && |host.requested| == host.calls - 1
    ensures EndsAt(host.env, Plan(timeout, intervals), accepts, host.calls - 1, result.Ok?)
    ensures result.Err? ==> result.error == host.env.value(host.calls - 1)
    ensures Asked(host.env, Plan(timeout, intervals), host.requested)
  {
    ghost var plan, good := Plan(timeout, intervals), accepts;
    ghost var last: nat, ok: bool :| EndsAt(host.env, plan, good, last, ok);
    var deadline := host.now + timeout;
    var intervalIdx := 0;
    NothingWaited(host.env, plan, good);
    while true
      invariant intervalIdx == host.calls <= last && Waited(host.env, plan, good, host.now, host.calls, host.requested)
      decreases last - host.calls
    {
      ghost var start := host.now;
      var actual := host.Attempt();
      if accepts(actual) {
        WaitedEnds(host.env, plan, good, start, intervalIdx, host.requested, true);
        return Ok(());
      }
      var expired := SleepOrExpire(host, intervals, intervalIdx, deadline, plan, good);
      if expired {
        WaitedEnds(host.env, plan, good, start, intervalIdx, host.requested, false);
        return Err(actual);
      }
      intervalIdx := intervalIdx + 1;
      RetriesBeforeEnd(host.env, plan, good, host.calls, last, ok);
    }
  }

  /** The failure of the last attempt, and how many attempts were made. */
  datatype Failure<E> = Failure(attempts: nat, last: E)

  predicate Passes<E>(outcome: Result<(), E>) {
    outcome.Ok?
  }

  method ToPassWithOptions<E(!new)>(host: Host<Result<(), E>>, timeout: nat, intervals: seq<nat>)
    returns (result: Result<(), Failure<E>>)
    requires host.now == host.env.start && host.calls == 0 && host.requested == []
    requires Ends(host.env, Plan(timeout, intervals), Passes<E>)
    modifies host
    ensures host.calls > 0 && |host.requested| == host.calls - 1
    ensures EndsAt(host.env, Plan(timeout, intervals), Passes<E>, host.calls - 1, result.Ok?)
    ensures result.Err? ==>
              result.error.attempts == host.calls && host.env.value(host.calls - 1) == Err(result.error.last)
    ensures Asked(host.env, Plan(timeout, intervals), host.requested)
  {
    ghost var plan, good := Plan(timeout, intervals), Passes<E>;
    ghost var last: nat, ok: bool :| EndsAt(host.env, plan, good, last, ok);
    var deadline := host.now + timeout;
    var intervalIdx, attempts := 0, 0;
    NothingWaited(host.env, plan, good);
    while true
      invariant attempts == intervalIdx == host.calls <= last
      invariant Waited(host.env, plan, good, host.now, host.calls, host.requested)
      decreases last - host.calls
    {
      attempts := attempts + 1;
      ghost var start := host.now;
      var outcome := host.Attempt();
      match outcome {
        case Ok(_) =>
          WaitedEnds(host.env, plan, good, start, intervalIdx, host.requested, true);
          return Ok(());
        case Err(e) =>
          var expired := SleepOrExpire(host, intervals, intervalIdx, deadline, plan, good);
          if expired {
            WaitedEnds(host.env, plan, good, start, intervalIdx, host.requested, false);
            return Err(Failure(attempts, e));
          }
          intervalIdx := intervalIdx + 1;
          RetriesBeforeEnd(host.env, plan, good, host.calls, last, ok);
      }
    }
  }

  // ---------------------------------------------------------------- that it ends

  /** Of the first k attempts, unless all fail with time left, one is the last. */
  lemma {:induction false} SomeEnd<T(!new)>(env: Env<T>, plan: Plan, good: T -> bool, k: nat)
    requires !RetriedUntil(env, plan, good, k)
    ensures exists j: nat, ok: bool :: j < k && EndsAt(env, plan, good, j, ok)
    decreases k
  {
    var last := k - 1;
    if RetriedUntil(env, plan, good, last) {
      assert EndsAt(env, plan, good, last, good(env.value(last)));
    } else {
      SomeEnd(env, plan, good, last);
    }
  }

  /** A loop goes on for ever only if every attempt fails with time left. */
  lemma EndsUnlessRetried<T(!new)>(env: Env<T>, plan: Plan, good: T -> bool)
    ensures Ends(env, plan, good) <==> exists k: nat :: !RetriedUntil(env, plan, good, k)
  {
    if Ends(env, plan, good) {
      var k: nat, ok: bool :| EndsAt(env, plan, good, k, ok);
      assert !RetriedUntil(env, plan, good, k + 1);
    }
    if k: nat :| !RetriedUntil(env, plan, good, k) {
      SomeEnd(env, plan, good, k);
    }
  }

  /** Time passes in every round: while it attempts, or else while it sleeps. */
  ghost predicate Progresses<T>(env: Env<T>, plan: Plan) {
    forall k: nat :: env.takes(k) > 0 || IntervalAt(plan.intervals, k) > 0
  }

  lemma {:induction false} RoundsTakeTime<T(!new)>(env: Env<T>, plan: Plan, good: T -> bool, k: nat)
    requires Progresses(env, plan) && RetriedUntil(env, plan, good, k)
    ensures StartOf(env, plan, k) >= env.start + k
    decreases k
  {
    if k > 0 {
      assert RetriedUntil(env, plan, good, k - 1);
      RoundsTakeTime(env, plan, good, k - 1);
      assert env.takes(k - 1) > 0 || IntervalAt(plan.intervals, k - 1) > 0;
      assert EndOf(env, plan, k - 1) < Deadline(env, plan);
    }
  }

  /** Where time passes in every round, a loop ends whatever its attempts yield. */
  lemma ProgressEnds<T(!new)>(env: Env<T>, plan: Plan, good: T -> bool)
    requires Progresses(env, plan)
    ensures Ends(env, plan, good)
  {
    var k := plan.timeout + 1;
    if RetriedUntil(env, plan, good, k) {
      StillInTime(env, plan, good, k, plan.timeout);
      RoundsTakeTime(env, plan, good, plan.timeout);
    } else {
      SomeEnd(env, plan, good, k);
    }
  }

  // ---------------------------------------------------------------- how often, and until when

  /** A run ends in one way only. */
  lemma EndIsUnique<T(!new)>(env: Env<T>, plan: Plan, good: T -> bool, k: nat, ok: bool, k': nat, ok': bool)
    requires EndsAt(env, plan, good, k, ok) && EndsAt(env, plan, good, k', ok')
    ensures k == k' && ok == ok'
  {
  }

  /** What the first k intervals add up to. */
  function Budget(intervals: seq<nat>, k: nat): (total: nat)
    decreases k
  {
    if k == 0 then 0 else Budget(intervals, k - 1) + IntervalAt(intervals, k - 1) * MILLISECOND
  }

  function Sum(intervals: seq<nat>): nat {
    if intervals == [] then 0 else Sum(intervals[..|intervals| - 1]) + intervals[|intervals| - 1]
  }

  /** The first k entries of the list, then its last entry for each attempt more; a second each when it is empty. */
  function Milliseconds(intervals: seq<nat>, k: nat): nat {
    if intervals == [] then k * 1000
    else if k <= |intervals| then Sum(intervals[..k])
    else Sum(intervals) + (k - |intervals|) * intervals[|intervals| - 1]
  }

  lemma MillisecondsNext(intervals: seq<nat>, k: nat)
    ensures Milliseconds(intervals, k + 1) == Milliseconds(intervals, k) + IntervalAt(intervals, k)
  {
    if k < |intervals| {
      assert intervals[..k + 1][..k] == intervals[..k];
    } else if intervals != [] {
      var last := intervals[|intervals| - 1];
      assert intervals[..|intervals|] == intervals;
      assert (k + 1 - |intervals|) * last == (k - |intervals|) * last + last;
    }
  }

  /** What the budget adds up to, in nanoseconds. */
  lemma {:induction false} BudgetMeans(intervals: seq<nat>, k: nat)
    ensures Budget(intervals, k) == Milliseconds(intervals, k) * 1_000_000
    decreases k
  {
    if k > 0 {
      BudgetMeans(intervals, k - 1);
      MillisecondsNext(intervals, k - 1);
    }
  }

  /** Attempt k starts once the first k intervals are over, or at the deadline if that comes first. */
  lemma {:induction false} StartsAfterBudget<T(!new)>(env: Env<T>, plan: Plan, good: T -> bool, k: nat)
    requires RetriedUntil(env, plan, good, k)
    ensures StartOf(env, plan, k) >= Deadline(env, plan) ||
            StartOf(env, plan, k) >= env.start + Budget(plan.intervals, k)
    decreases k
  {
    if k > 0 {
      assert RetriedUntil(env, plan, good, k - 1);
      StartsAfterBudget(env, plan, good, k - 1);
      assert EndOf(env, plan, k - 1) < Deadline(env, plan);
    }
  }

  lemma StillInTime<T(!new)>(env: Env<T>, plan: Plan, good: T -> bool, last: nat, k: nat)
    requires RetriedUntil(env, plan, good, last) && k < last
    ensures EndOf(env, plan, k) < Deadline(env, plan)
  {
    assert !good(env.value(k));
  }

  /** Once the intervals add up to the timeout, one more attempt is the last. */
  lemma AttemptsFitBudget<T(!new)>(env: Env<T>, plan: Plan, good: T -> bool, last: nat, ok: bool, k: nat)
    requires EndsAt(env, plan, good, last, ok) && Budget(plan.intervals, k) >= plan.timeout
    ensures last + 1 <= k + 1
  {
    if last > k {
      StillInTime(env, plan, good, last, k);
      StartsAfterBudget(env, plan, good, k);
    }
  }

  lemma {:induction false} BudgetGrows(intervals: seq<nat>, m: nat, k: nat)
    requires forall j: nat :: IntervalAt(intervals, j) >= m
    ensures Budget(intervals, k) >= k * (m * MILLISECOND)
    decreases k
  {
    if k > 0 {
      BudgetGrows(intervals, m, k - 1);
      assert IntervalAt(intervals, k - 1) >= m;
      assert k * (m * MILLISECOND) == (k - 1) * (m * MILLISECOND) + m * MILLISECOND;
    }
  }

  /** With intervals of at least m > 0 milliseconds a loop makes at most ceil(timeout / m) + 1 attempts. */
  lemma AttemptsBounded<T(!new)>(env: Env<T>, plan: Plan, good: T -> bool, last: nat, ok: bool, m: nat)
    requires EndsAt(env, plan, good, last, ok)
    requires m > 0 && (forall i :: 0 <= i < |plan.intervals| ==> plan.intervals[i] >= m)
    requires plan.intervals == [] ==> DEFAULT_INTERVAL >= m
    ensures last + 1 <= (plan.timeout + m * MILLISECOND - 1) / (m * MILLISECOND) + 1
  {
    var unit := m * MILLISECOND;
    var k := (plan.timeout + unit - 1) / unit;
    Ceiling(plan.timeout, unit);
    BudgetGrows(plan.intervals, m, k);
    AttemptsFitBudget(env, plan, good, last, ok, k);
  }

  lemma Ceiling(a: nat, unit: nat)
    requires unit > 0
    ensures (a + unit - 1) / unit * unit >= a
  {
    var q, r := (a + unit - 1) / unit, (a + unit - 1) % unit;
    assert a + unit - 1 == q * unit + r;
  }

  /** No sleep is requested past the deadline, and a failing run has tried at or after it. */
  lemma SleepsEndInTime<T(!new)>(env: Env<T>, plan: Plan, good: T -> bool, last: nat, ok: bool, k: nat)
    requires EndsAt(env, plan, good, last, ok) && k < last
    ensures EndOf(env, plan, k) + SleepAfter(env, plan, k) <= Deadline(env, plan)
    ensures EndOf(env, plan, k) + SleepAfter(env, plan, k) <= StartOf(env, plan, k + 1)
    ensures !ok ==> EndOf(env, plan, last) >= Deadline(env, plan)
  {
    assert EndOf(env, plan, k) < Deadline(env, plan);
  }

  /** When sleeps are exact and attempts take no time, the run is the plan itself: attempt k starts when the
      first k intervals are over, and the clamp puts the last attempt of a failing run exactly at the deadline. */
  lemma {:induction false} ExactRun<T(!new)>(env: Env<T>, plan: Plan, good: T -> bool, k: nat)
    requires RetriedUntil(env, plan, good, k)
    requires forall j: nat :: env.takes(j) == 0 && env.late(j) == 0
    ensures StartOf(env, plan, k) ==
            if Budget(plan.intervals, k) <= plan.timeout then env.start + Budget(plan.intervals, k)
            else Deadline(env, plan)
    decreases k
  {
    if k > 0 {
      assert RetriedUntil(env, plan, good, k - 1);
      ExactRun(env, plan, good, k - 1);
      assert EndOf(env, plan, k - 1) < Deadline(env, plan);
    }
  }

  lemma LastAttemptAtDeadline<T(!new)>(env: Env<T>, plan: Plan, good: T -> bool, last: nat)
    requires EndsAt(env, plan, good, last, false)
    requires forall j: nat :: env.takes(j) == 0 && env.late(j) == 0
    ensures StartOf(env, plan, last) == Deadline(env, plan)
    ensures Budget(plan.intervals, last) >= plan.timeout
    ensures last > 0 ==> Budget(plan.intervals, last - 1) < plan.timeout
  {
    ExactRun(env, plan, good, last);
    if last > 0 {
      assert RetriedUntil(env, plan, good, last - 1);
      ExactRun(env, plan, good, last - 1);
      assert EndOf(env, plan, last - 1) < Deadline(env, plan);
    }
  }
}
