/** Step matching (crates/ferridriver-bdd/src/registry.rs:251-315). */
module Registry {
  import opened Json

  type Params = seq<string>

  datatype StepDef = StepDef(expression: string, location: string)

  /** What the regex and the parameter extraction of a definition make of a text. */
  datatype Attempt = NoCapture | BadParams | Captured(params: Params)

  type Matcher = (StepDef, string) -> Attempt

  datatype MatchError =
    | Undefined(text: string)
    | Ambiguous(text: string, matches: seq<string>, expressions: seq<string>)

  datatype StepMatch = StepMatch(def: StepDef, params: Params)

  // ---------------------------------------------------------------- the simple specification

  /** The definitions that match and extract, in registration order. */
  function Matching(steps: seq<StepDef>, text: string, matcher: Matcher): seq<StepDef> {
    if steps == [] then []
    else Matching(steps[..|steps| - 1], text, matcher) +
         if matcher(steps[|steps| - 1], text).Captured? then [steps[|steps| - 1]] else []
  }

  function Locations(defs: seq<StepDef>): seq<string> {
    seq(|defs|, i requires 0 <= i < |defs| => defs[i].location)
  }

  function Expressions(defs: seq<StepDef>): seq<string> {
    seq(|defs|, i requires 0 <= i < |defs| => defs[i].expression)
  }

  function Found(steps: seq<StepDef>, text: string, matcher: Matcher): Result<StepMatch, MatchError> {
    var all := Matching(steps, text, matcher);
    if |all| == 0 then Err(Undefined(text))
    else if |all| == 1 && matcher(all[0], text).Captured? then Ok(StepMatch(all[0], matcher(all[0], text).params))
    else Err(Ambiguous(text, Locations(all), Expressions(all)))
  }

  /** `at` are the positions of exactly the definitions that match and extract, in registration order. */
  predicate MatchesAt(steps: seq<StepDef>, text: string, matcher: Matcher, at: seq<nat>) {
    (forall k :: 0 <= k < |at| ==> at[k] < |steps| && matcher(steps[at[k]], text).Captured?) &&
    (forall k, m :: 0 <= k < m < |at| ==> at[k] < at[m]) &&
    forall i :: 0 <= i < |steps| && matcher(steps[i], text).Captured? ==> i in at
  }

  lemma {:induction false} MatchingAt(steps: seq<StepDef>, text: string, matcher: Matcher) returns (at: seq<nat>)
    ensures MatchesAt(steps, text, matcher, at)
    ensures var all := Matching(steps, text, matcher);
            |all| == |at| && forall k :: 0 <= k < |at| ==> all[k] == steps[at[k]]
  {
    at := [];
    if steps != [] {
      var n := |steps| - 1;
      at := MatchingAt(steps[..n], text, matcher);
      OneMoreMatch(steps, text, matcher, at);
      if matcher(steps[n], text).Captured? {
        at := at + [n];
      }
    }
  }

  lemma OneMoreMatch(steps: seq<StepDef>, text: string, matcher: Matcher, before: seq<nat>)
    requires steps != [] && MatchesAt(steps[..|steps| - 1], text, matcher, before)
    ensures var n := |steps| - 1;
            MatchesAt(steps, text, matcher, if matcher(steps[n], text).Captured? then before + [n] else before)
  {
    var n := |steps| - 1;
    var init := steps[..n];
    var at := if matcher(steps[n], text).Captured? then before + [n] else before;
    forall k | 0 <= k < |at| ensures at[k] < |steps| && matcher(steps[at[k]], text).Captured? {
      if k < |before| {
        assert at[k] == before[k] && init[before[k]] == steps[before[k]];
      }
    }
    forall i | 0 <= i < |steps| && matcher(steps[i], text).Captured? ensures i in at {
      if i < n {
        assert init[i] == steps[i] && i in before;
      } else {
        assert at[|before|] == n;
      }
    }
  }

  /** The three answers, told apart by how many of the registered definitions match and extract: none is
      `Undefined`, a single one is the answer, and several are `Ambiguous`, listed in full and in order. */
  lemma FoundMeans(steps: seq<StepDef>, text: string, matcher: Matcher) returns (at: seq<nat>)
    ensures MatchesAt(steps, text, matcher, at)
    ensures match Found(steps, text, matcher)
            case Err(Undefined(t)) => t == text && |at| == 0
            case Ok(m) => |at| == 1 && m.def == steps[at[0]] && matcher(m.def, text) == Captured(m.params)
            case Err(Ambiguous(t, locations, expressions)) =>
              t == text && |at| == |locations| == |expressions| >= 2 &&
              forall k :: 0 <= k < |at| ==>
                locations[k] == steps[at[k]].location && expressions[k] == steps[at[k]].expression
  {
    at := MatchingAt(steps, text, matcher);
  }

  // ---------------------------------------------------------------- the early-exit scan

  class StepRegistry {
    var steps: seq<StepDef>

    constructor ()
      ensures steps == []
    {
      steps := [];
    }

    method Register(def: StepDef)
      modifies this
      ensures steps == old(steps) + [def]
    {
      steps := steps + [def];
    }

    /** Remember the first match; at the second, collect the rest and report them all. */
    method FindMatch(text: string, matcher: Matcher) returns (result: Result<StepMatch, MatchError>)
      ensures result == Found(steps, text, matcher)
    {
      var first: Option<StepMatch> := None;
      for n := 0 to |steps|
        invariant first == None ==> Matching(steps[..n], text, matcher) == []
        invariant first.Some? ==>
          Matching(steps[..n], text, matcher) == [first.value.def] &&
          matcher(first.value.def, text) == Captured(first.value.params)
      {
        assert steps[..n + 1][..n] == steps[..n];
        var attempt := matcher(steps[n], text);
        if attempt.Captured? {
          if first.Some? {
            var all := [first.value.def, steps[n]];
            for m := n + 1 to |steps|
              invariant all == Matching(steps[..m], text, matcher) && |all| >= 2
            {
              assert steps[..m + 1][..m] == steps[..m];
              if matcher(steps[m], text).Captured? {
                all := all + [steps[m]];
              }
            }
            assert steps[..|steps|] == steps;
            return Err(Ambiguous(text, Locations(all), Expressions(all)));
          }
          first := Some(StepMatch(steps[n], attempt.params));
        }
      }
      assert steps[..|steps|] == steps;
      result := if first.Some? then Ok(first.value) else Err(Undefined(text));
    }
  }
}
