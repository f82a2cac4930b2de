/** Which values each matcher accepts (crates/ferridriver-expect/src/asymmetric.rs:72-190, 316-366). */
module AsymmetricMeaning {
  import opened Json
  import opened Asymmetric

  /** A matcher as an expected value; both comparisons ask the same of it. */
  ghost predicate Accepts(env: Env, m: Matcher, actual: Value) {
    DeepEqualWith(env, actual, Encoded(m)) && MatchObjectWith(env, actual, Encoded(m))
  }

  ghost predicate Rejects(env: Env, m: Matcher, actual: Value) {
    !DeepEqualWith(env, actual, Encoded(m)) && !MatchObjectWith(env, actual, Encoded(m))
  }

  lemma AcceptsOrRejects(env: Env, m: Matcher, actual: Value)
    requires ImagesDoubles(env) && Buildable(m)
    ensures Decoded(env, Encoded(m)) == Some(m)
    ensures Accepts(env, m, actual) <==> MatchesWith(env, Encoded(m), m, actual)
    ensures Accepts(env, m, actual) <==> !Rejects(env, m, actual)
  {
    DecodingUndoesEncoding(env, m);
  }

  // ---------------------------------------------------------------- what deep equality asks of plain values

  /** Against an expected value that is no matcher itself: the same kind, and then the same scalar, the entries one by
      one, or the same keys with equal members. */
  lemma DeepEqualByParts(env: Env, actual: Value, expected: Value)
    requires Decoded(env, expected).None?
    ensures DeepEqualWith(env, actual, expected) <==>
            match expected
            case Null => actual == Null
            case Bool(b) => actual == Bool(b)
            case Str(s) => actual == Str(s)
            case Num(n) => actual.Num? && SameNumber(env, actual.number, n)
            case Arr(items) =>
              actual.Arr? && |actual.items| == |items| &&
              forall i :: 0 <= i < |items| ==> DeepEqualWith(env, actual.items[i], items[i])
            case Obj(fields) =>
              actual.Obj? && actual.fields.Keys == fields.Keys &&
              forall k :: k in fields && k in actual.fields ==> DeepEqualWith(env, actual.fields[k], fields[k])
  {
    if actual.Obj? && expected.Obj? {
      assert |actual.fields| == |actual.fields.Keys| && |expected.fields| == |expected.fields.Keys|;
      if actual.fields.Keys <= expected.fields.Keys && |actual.fields| == |expected.fields| {
        SameSizeSubset(actual.fields.Keys, expected.fields.Keys);
      }
    }
  }

  // ---------------------------------------------------------------- the matchers one by one

  function Restricted(fields: map<string, Value>, keys: set<string>): Value {
    Obj(map k | k in fields && k in keys :: fields[k])
  }

  /** An object that has every key of the subset, each with an equal value. */
  lemma ObjectContainingMeans(env: Env, subset: map<string, Value>, actual: Value)
    requires ImagesDoubles(env)
    ensures Accepts(env, ObjectContaining(subset), actual) <==>
            actual.Obj? && subset.Keys <= actual.fields.Keys &&
            forall k :: k in subset && k in actual.fields ==> DeepEqualWith(env, actual.fields[k], subset[k])
  {
    AcceptsOrRejects(env, ObjectContaining(subset), actual);
  }

  /** So, when the subset is no matcher itself, the objects that equal it once restricted to its keys. */
  lemma ObjectContainingRestricts(env: Env, subset: map<string, Value>, actual: Value)
    requires ImagesDoubles(env) && Decoded(env, Obj(subset)).None?
    ensures Accepts(env, ObjectContaining(subset), actual) <==>
            actual.Obj? && DeepEqualWith(env, Restricted(actual.fields, subset.Keys), Obj(subset))
  {
    ObjectContainingMeans(env, subset, actual);
    if actual.Obj? {
      var kept := Restricted(actual.fields, subset.Keys);
      DeepEqualByParts(env, kept, Obj(subset));
      assert kept.fields.Keys == actual.fields.Keys * subset.Keys;
    }
  }

  /** Some entry equals the item. */
  predicate EqualAmong(env: Env, entries: seq<Value>, item: Value) {
    exists j :: 0 <= j < |entries| && DeepEqualWith(env, entries[j], item)
  }

  /** An array with an equal entry for each item, in any order. */
  lemma ArrayContainingMeans(env: Env, items: seq<Value>, actual: Value)
    requires ImagesDoubles(env)
    ensures Accepts(env, ArrayContaining(items), actual) <==>
            actual.Arr? && forall i :: 0 <= i < |items| ==> EqualAmong(env, actual.items, items[i])
  {
    AcceptsOrRejects(env, ArrayContaining(items), actual);
    if Accepts(env, ArrayContaining(items), actual) {
      forall i | 0 <= i < |items| ensures EqualAmong(env, actual.items, items[i]) {
        var item := items[i];
        var j :| 0 <= j < |actual.items| && DeepEqualWith(env, actual.items[j], item);
      }
    } else if actual.Arr? && items != [] {
      if actual.items == [] {
        assert !EqualAmong(env, actual.items, items[0]);
      } else {
        assert actual.items[0] in actual.items;
      }
    }
  }

  /** An array whose every entry equals the sample. */
  lemma ArrayOfMeans(env: Env, sample: Value, actual: Value)
    requires ImagesDoubles(env)
    ensures Accepts(env, ArrayOf(sample), actual) <==>
            actual.Arr? && forall j :: 0 <= j < |actual.items| ==> DeepEqualWith(env, actual.items[j], sample)
  {
    AcceptsOrRejects(env, ArrayOf(sample), actual);
  }

  /** Everything but null; and of each type the values of that type, a user class taking any object and a function
      nothing that JSON can hold. */
  lemma TypesMean(env: Env, name: string, actual: Value)
    requires ImagesDoubles(env)
    ensures Accepts(env, Anything, actual) <==> actual != Null
    ensures Accepts(env, Any(StringTag), actual) <==> actual.Str?
    ensures Accepts(env, Any(NumberTag), actual) <==> actual.Num?
    ensures Accepts(env, Any(BooleanTag), actual) <==> actual.Bool?
    ensures Accepts(env, Any(ObjectTag), actual) <==> actual.Obj?
    ensures Accepts(env, Any(ArrayTag), actual) <==> actual.Arr?
    ensures Rejects(env, Any(FunctionTag), actual)
    ensures Buildable(Any(CustomTag(name))) ==> (Accepts(env, Any(CustomTag(name)), actual) <==> actual.Obj?)
  {
    AcceptsOrRejects(env, Anything, actual);
    TypeMeans(env, StringTag, actual);
    TypeMeans(env, NumberTag, actual);
    TypeMeans(env, BooleanTag, actual);
    TypeMeans(env, ObjectTag, actual);
    TypeMeans(env, ArrayTag, actual);
    TypeMeans(env, FunctionTag, actual);
    if Buildable(Any(CustomTag(name))) {
      TypeMeans(env, CustomTag(name), actual);
    }
  }

  lemma TypeMeans(env: Env, tag: TypeTag, actual: Value)
    requires ImagesDoubles(env) && Buildable(Any(tag))
    ensures Accepts(env, Any(tag), actual) <==> HasType(tag, actual)
    ensures Rejects(env, Any(tag), actual) <==> !HasType(tag, actual)
  {
    AcceptsOrRejects(env, Any(tag), actual);
  }

  lemma {:induction false} ContainsMeans(s: string, needle: string)
    ensures Contains(s, needle) <==> exists i :: 0 <= i <= |s| && needle <= s[i..]
    decreases |s|
  {
    if needle <= s {
      assert s[0..] == s;
    } else if s != "" {
      ContainsMeans(s[1..], needle);
      if i :| 0 <= i <= |s| && needle <= s[i..] {
        assert i > 0 by {
          assert s[0..] == s;
        }
        assert s[1..][i - 1..] == s[i..];
      }
      if i :| 0 <= i <= |s[1..]| && needle <= s[1..][i..] {
        assert s[i + 1..] == s[1..][i..];
      }
    } else {
      assert forall i :: 0 <= i <= |s| ==> s[i..] == s;
    }
  }

  /** A text that holds the needle somewhere; a text equal to the plain pattern, or that the regex matches. */
  lemma TextsMean(env: Env, needle: string, source: string, flags: string, actual: Value)
    requires ImagesDoubles(env)
    ensures Accepts(env, StringContaining(needle), actual) <==>
            actual.Str? && exists i :: 0 <= i <= |actual.s| && needle <= actual.s[i..]
    ensures Accepts(env, StringMatching(Text(needle)), actual) <==> actual == Str(needle)
    ensures Accepts(env, StringMatching(Regex(source, flags)), actual) <==>
            actual.Str? && env.regex(source, flags, actual.s)
  {
    AcceptsOrRejects(env, StringContaining(needle), actual);
    AcceptsOrRejects(env, StringMatching(Text(needle)), actual);
    AcceptsOrRejects(env, StringMatching(Regex(source, flags)), actual);
    if actual.Str? {
      ContainsMeans(actual.s, needle);
    }
  }

  /** A number close to the given double; what the host's own matcher accepts, and nothing where there is none. */
  lemma HostsMean(env: Env, bits: nat, digits: nat, name: string, args: seq<Value>, actual: Value)
    requires ImagesDoubles(env) && digits < 256
    ensures Accepts(env, CloseTo(bits, digits), actual) <==>
            actual.Num? && env.close(env.image(actual.number), bits, digits)
    ensures env.custom.Some? ==> (Accepts(env, Custom(name, args), actual) <==> env.custom.value(name, args, actual))
    ensures env.custom.None? ==> Rejects(env, Custom(name, args), actual)
  {
    AcceptsOrRejects(env, CloseTo(bits, digits), actual);
    AcceptsOrRejects(env, Custom(name, args), actual);
  }

  // ---------------------------------------------------------------- what a tagged object leaves out

  function Tagged(tag: string, payload: map<string, Value>): Value {
    Obj(payload[ASYM_TAG_KEY := Str(tag)])
  }

  /** What stands in for a missing part. */
  lemma MissingParts(env: Env, source: string, name: string, n: Number)
    ensures Decoded(env, Tagged("any", map[])) == Some(Any(ObjectTag))
    ensures Decoded(env, Tagged("stringMatching", map["regex" := Str(source)])) ==
            Some(StringMatching(Regex(source, "")))
    ensures Decoded(env, Tagged("custom", map["name" := Str(name)])) == Some(Custom(name, []))
    ensures Decoded(env, Tagged("closeTo", map["value" := Num(n)])) == Some(CloseTo(env.image(n), 2))
  {
    assert GetText(Tagged("any", map[]), "name") == None;
    Untagged("stringMatching", map["regex" := Str(source)], "substring");
    Untagged("stringMatching", map["regex" := Str(source)], "regex");
    Untagged("stringMatching", map["regex" := Str(source)], "flags");
    Untagged("custom", map["name" := Str(name)], "name");
    Untagged("custom", map["name" := Str(name)], "args");
    Untagged("closeTo", map["value" := Num(n)], "value");
    Untagged("closeTo", map["value" := Num(n)], "digits");
  }

  lemma Untagged(tag: string, payload: map<string, Value>, key: string)
    requires key != ASYM_TAG_KEY
    ensures Get(Tagged(tag, payload), key) == if key in payload then Some(payload[key]) else None
    ensures GetText(Tagged(tag, payload), ASYM_TAG_KEY) == Some(tag)
  {
  }

  /** A value without a text under the tag key, or with a text that names no matcher, is no matcher. */
  lemma OthersAreValues(env: Env, v: Value)
    requires match GetText(v, ASYM_TAG_KEY)
             case None => true
             case Some(tag) =>
               tag !in ["anything", "any", "arrayContaining", "objectContaining", "stringContaining",
                        "stringMatching", "closeTo", "arrayOf", "custom", "not"]
    ensures Decoded(env, v) == None
  {
  }

  /** A matcher whose part is missing or of the wrong kind is a plain value. */
  lemma PartsAreNeeded(env: Env, payload: map<string, Value>)
    ensures Decoded(env, Tagged("arrayContaining", payload)).Some? <==>
            "items" in payload && payload["items"].Arr?
    ensures Decoded(env, Tagged("objectContaining", payload)).Some? <==>
            "subset" in payload && payload["subset"].Obj?
  {
    Untagged("arrayContaining", payload, "items");
    Untagged("objectContaining", payload, "subset");
  }

  lemma TextsAreNeeded(env: Env, payload: map<string, Value>)
    ensures Decoded(env, Tagged("stringContaining", payload)).Some? <==>
            "substring" in payload && payload["substring"].Str?
    ensures Decoded(env, Tagged("closeTo", payload)).Some? <==> "value" in payload && payload["value"].Num?
  {
    Untagged("stringContaining", payload, "substring");
    Untagged("closeTo", payload, "value");
  }

  lemma InnersAreNeeded(env: Env, payload: map<string, Value>)
    ensures Decoded(env, Tagged("arrayOf", payload)).Some? <==> "sample" in payload
    ensures Decoded(env, Tagged("not", payload)).Some? <==>
            "inner" in payload && Decoded(env, payload["inner"]).Some?
  {
    Untagged("arrayOf", payload, "sample");
    Untagged("not", payload, "inner");
  }
}
