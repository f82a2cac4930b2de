/** `$name` interpolation: the executor's scanner and the dry run's
    (crates/ferridriver-bdd/src/world.rs:113-115, 234-266; crates/ferridriver-bdd/src/dry_run.rs:85-119). */
module World {
  import opened Json
  import opened Scanning

  /** How many leading characters belong to a variable name. */
  function NameLength(s: string, wide: char -> bool): nat {
    Leading(s, false, wide)
  }

  /** What the text at a `$` becomes, and how much of it is read. */
  function Dollar(s: string, vars: map<string, string>, wide: char -> bool): (r: (string, nat))
    requires s != "" && s[0] == '$'
    ensures 0 < r.1 <= |s|
  {
    if |s| > 1 && s[1] == '$' then ("$", 2)
    else
      var n := NameLength(s[1..], wide);
      var name := s[1..1 + n];
      (if name in vars then vars[name] else "$" + name, 1 + n)
  }

  /** The text built so far, followed by what the rest becomes. */
  function InterpolatedFrom(out: string, s: string, vars: map<string, string>, wide: char -> bool): string
    decreases |s|
  {
    if s == "" then out
    else if s[0] == '$' then
      var (shown, n) := Dollar(s, vars, wide);
      InterpolatedFrom(out + shown, s[n..], vars, wide)
    else InterpolatedFrom(out + [s[0]], s[1..], vars, wide)
  }

  function Interpolated(s: string, vars: map<string, string>, wide: char -> bool): string {
    InterpolatedFrom("", s, vars, wide)
  }

  /** A scenario's variables, and the rest of what handlers and hooks can change. */
  datatype Contents = Contents(vars: map<string, string>, state: int)

  class BrowserWorld {
    var vars: map<string, string>
    var state: int

    constructor ()
      ensures vars == map[]
    {
      vars := map[];
    }

    function Value(): Contents
      reads this
    {
      Contents(vars, state)
    }

    method Become(value: Contents)
      modifies this
      ensures Value() == value
    {
      vars, state := value.vars, value.state;
    }

    method SetVar(name: string, value: string)
      modifies this`vars
      ensures vars == old(vars)[name := value]
    {
      vars := vars[name := value];
    }

    /** The row's values become variables (executor.rs:118-122). */
    method SetVars(values: map<string, string>)
      modifies this`vars
      ensures vars == old(vars) + values
    {
      var todo := values.Keys;
      while todo != {}
        invariant todo <= values.Keys
        invariant vars == old(vars) + map k | k in values && k !in todo :: values[k]
        decreases todo
      {
        var name :| name in todo;
        SetVar(name, values[name]);
        todo := todo - {name};
      }
      assert (map k | k in values && k !in todo :: values[k]) == values;
    }

    method Interpolate(text: string, wide: char -> bool) returns (result: string)
      ensures result == Interpolated(text, vars, wide)
    {
      var i := 0;
      result := "";
      assert text[0..] == text;
      while i < |text|
        invariant i <= |text|
        invariant Interpolated(text, vars, wide) == InterpolatedFrom(result, text[i..], vars, wide)
      {
        var rest := text[i..];
        var shown, read := [rest[0]], 1;
        if rest[0] == '$' {
          if |rest| > 1 && rest[1] == '$' {
            shown, read := "$", 2;
          } else {
            var n := NameLength(rest[1..], wide);
            var name := rest[1..1 + n];
            shown, read := if name in vars then vars[name] else "$" + name, 1 + n;
          }
        }
        assert rest[read..] == text[i + read..];
        result, i := result + shown, i + read;
      }
    }
  }

  /** What the dry run matches: the text as written when the row has no values. */
  function Substituted(text: string, values: Option<map<string, string>>, wide: char -> bool): string {
    if values.None? || values.value == map[] then text else Interpolated(text, values.value, wide)
  }

  method Substitute(text: string, values: Option<map<string, string>>, wide: char -> bool) returns (out: string)
    ensures out == Substituted(text, values, wide)
  {
    if values.None? || values.value == map[] {
      return text;
    }
    var i := 0;
    out := "";
    assert text[0..] == text;
    while i < |text|
      invariant i <= |text|
      invariant Interpolated(text, values.value, wide) == InterpolatedFrom(out, text[i..], values.value, wide)
    {
      if text[i] != '$' {
        assert text[i..][1..] == text[i + 1..];
        out, i := out + [text[i]], i + 1;
        continue;
      }
      if i + 1 < |text| && text[i + 1] == '$' {
        assert text[i..][2..] == text[i + 2..];
        out, i := out + "$", i + 2;
        continue;
      }
      var start := i + 1;
      assert text[i..][1..] == text[start..];
      i := TakeWhile(text, start, false, wide);
      assert text[start - 1..][1..i - start + 1] == text[start..i];
      assert text[start - 1..][i - start + 1..] == text[i..];
      var name := text[start..i];
      out := out + if name in values.value then values.value[name] else "$" + name;
    }
  }

  // ---------------------------------------------------------------- when the two agree

  predicate DoubledDollar(s: string) {
    exists i :: 0 <= i < |s| - 1 && s[i] == '$' && s[i + 1] == '$'
  }

  lemma {:induction false} NamesHaveNoDollar(s: string, wide: char -> bool)
    ensures forall i :: 0 <= i < NameLength(s, wide) ==> s[i] != '$'
  {
    if s != "" && Continues(s[0], false, wide) {
      NamesHaveNoDollar(s[1..], wide);
    }
  }

  lemma {:induction false} NoVariables(out: string, s: string, wide: char -> bool)
    ensures |InterpolatedFrom(out, s, map[], wide)| <= |out| + |s|
    ensures !DoubledDollar(s) ==> InterpolatedFrom(out, s, map[], wide) == out + s
    ensures DoubledDollar(s) ==> |InterpolatedFrom(out, s, map[], wide)| < |out| + |s|
    decreases |s|
  {
    if s != "" {
      var (shown, n) := if s[0] == '$' then Dollar(s, map[], wide) else ([s[0]], 1);
      NoVariables(out + shown, s[n..], wide);
      if shown == s[..n] {
        assert out + shown + s[n..] == out + s;
      }
      DollarKeeps(s, n, wide);
    }
  }

  /** One step without variables keeps the text, and the doubled dollars that follow, unless it
      reads a doubled dollar itself. */
  lemma DollarKeeps(s: string, n: nat, wide: char -> bool)
    requires s != ""
    requires n == if s[0] == '$' then Dollar(s, map[], wide).1 else 1
    ensures s[0] == '$' && |s| > 1 && s[1] == '$' ==> DoubledDollar(s)
    ensures !(s[0] == '$' && |s| > 1 && s[1] == '$') ==> (DoubledDollar(s) <==> DoubledDollar(s[n..]))
    ensures !(s[0] == '$' && |s| > 1 && s[1] == '$') && s[0] == '$' ==> Dollar(s, map[], wide).0 == s[..n]
  {
    NamesHaveNoDollar(s[1..], wide);
    var rest := s[n..];
    if i :| 0 <= i < |rest| - 1 && rest[i] == '$' && rest[i + 1] == '$' {
      assert s[n + i] == '$' && s[n + i + 1] == '$';
    }
    if !(s[0] == '$' && |s| > 1 && s[1] == '$') && DoubledDollar(s) {
      var i :| 0 <= i < |s| - 1 && s[i] == '$' && s[i + 1] == '$';
      assert forall k :: 1 <= k < n ==> s[k] == s[1..][k - 1];
      assert i >= n;
      assert rest[i - n] == '$' && rest[i - n + 1] == '$';
    }
  }

  /** The dry run reads a step as the executor will, for whatever variables only the row sets, if
      and only if the row has values or the text doubles no dollar. */
  lemma SubstituteAgrees(text: string, values: Option<map<string, string>>, wide: char -> bool)
    ensures var vars := if values.Some? then values.value else map[];
            Substituted(text, values, wide) == Interpolated(text, vars, wide) <==>
            (vars != map[] || !DoubledDollar(text))
  {
    NoVariables("", text, wide);
    assert "" + text == text;
  }

  // ---------------------------------------------------------------- what a text reads as

  lemma {:induction false} WrittenStays(out: string, s: string, vars: map<string, string>, wide: char -> bool)
    ensures InterpolatedFrom(out, s, vars, wide) == out + Interpolated(s, vars, wide)
    decreases |s|
  {
    if s != "" {
      var (shown, n) := if s[0] == '$' then Dollar(s, vars, wide) else ([s[0]], 1);
      WrittenStays(out + shown, s[n..], vars, wide);
      WrittenStays(shown, s[n..], vars, wide);
      assert "" + shown == shown;
      assert out + shown + Interpolated(s[n..], vars, wide) == out + (shown + Interpolated(s[n..], vars, wide));
    }
  }

  /** Text without a dollar stays as it is. */
  lemma {:induction false} PlainStays(text: string, rest: string, vars: map<string, string>, wide: char -> bool)
    requires forall i :: 0 <= i < |text| ==> text[i] != '$'
    ensures Interpolated(text + rest, vars, wide) == text + Interpolated(rest, vars, wide)
    ensures Interpolated(text, vars, wide) == text
    decreases |text|
  {
    if text == "" {
      assert text + rest == rest;
    } else {
      var head, tail := [text[0]], text[1..];
      PlainStays(tail, rest, vars, wide);
      assert (text + rest)[1..] == tail + rest && (text + rest)[0] == text[0];
      WrittenStays(head, tail + rest, vars, wide);
      WrittenStays(head, tail, vars, wide);
      assert "" + head == head && head + tail == text;
      assert head + (tail + Interpolated(rest, vars, wide)) == text + Interpolated(rest, vars, wide);
    }
  }

  /** A dollar and the name after it become the variable's value verbatim, whatever it holds, and stay as written
      when there is no such variable. */
  lemma VariableShown(name: string, rest: string, vars: map<string, string>, wide: char -> bool)
    requires forall i :: 0 <= i < |name| ==> Continues(name[i], false, wide)
    requires rest == "" || (!Continues(rest[0], false, wide) && (name == "" ==> rest[0] != '$'))
    ensures Interpolated("$" + name + rest, vars, wide) ==
            (if name in vars then vars[name] else "$" + name) + Interpolated(rest, vars, wide)
  {
    var s := "$" + name + rest;
    LeadingAll(name, rest, false, wide);
    assert s[1..] == name + rest && s[1..1 + |name|] == name && s[1 + |name|..] == rest;
    assert |s| > 1 && s[1] == '$' ==> name != "" by {
      assert name == "" ==> s[1..] == rest;
    }
    assert name != "" ==> s[1] == name[0];
    var shown := if name in vars then vars[name] else "$" + name;
    assert Dollar(s, vars, wide) == (shown, 1 + |name|);
    WrittenStays("" + shown, rest, vars, wide);
    assert "" + shown == shown;
  }

  /** A doubled dollar is one. */
  lemma DollarHalved(rest: string, vars: map<string, string>, wide: char -> bool)
    ensures Interpolated("$$" + rest, vars, wide) == "$" + Interpolated(rest, vars, wide)
  {
    var s := "$$" + rest;
    assert s[2..] == rest && "" + "$" == "$";
    WrittenStays("$", rest, vars, wide);
  }
}
