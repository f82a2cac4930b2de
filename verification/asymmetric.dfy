/** Structural comparison with embedded matchers
    (crates/ferridriver-expect/src/asymmetric.rs:72-190, 316-366). */
module Asymmetric {
  import opened Json

  const ASYM_TAG_KEY := "@@asym"

  datatype TypeTag = StringTag | NumberTag | BooleanTag | ObjectTag | ArrayTag | FunctionTag | CustomTag(name: string)

  datatype Pattern = Text(text: string) | Regex(source: string, flags: string)

  datatype Matcher =
    | Anything
    | Any(tag: TypeTag)
    | ArrayContaining(items: seq<Value>)
    | ObjectContaining(subset: map<string, Value>)
    | StringContaining(needle: string)
    | StringMatching(pattern: Pattern)
    | CloseTo(bits: nat, digits: nat)
    | ArrayOf(sample: Value)
    | Custom(name: string, args: seq<Value>)
    | Not(inner: Matcher)

  /** What the comparison takes from elsewhere: the f64 image of a number (as its bit pattern) and which
      images are NaN, closeness of two images, the regex engine, and the host's own matchers, if any. */
  datatype Env = Env(
    image: Number -> nat,
    nan: nat -> bool,
    close: (nat, nat, nat) -> bool,
    regex: (string, string, string) -> bool,
    custom: Option<(string, seq<Value>, Value) -> bool>
  )

  // ---------------------------------------------------------------- decoding a tagged object

  function Get(v: Value, key: string): Option<Value> {
    if v.Obj? && key in v.fields then Some(v.fields[key]) else None
  }

  function GetText(v: Value, key: string): Option<string> {
    match Get(v, key)
    case Some(Str(s)) => Some(s)
    case _ => None
  }

  function TagNamed(name: string): TypeTag {
    if name == "String" then StringTag
    else if name == "Number" then NumberTag
    else if name == "Boolean" then BooleanTag
    else if name == "Object" then ObjectTag
    else if name == "Array" then ArrayTag
    else if name == "Function" then FunctionTag
    else CustomTag(name)
  }

  function OrElse<T>(o: Option<T>, default: T): T {
    if o.Some? then o.value else default
  }

  function Decoded(env: Env, v: Value): Option<Matcher>
    decreases v
  {
    match GetText(v, ASYM_TAG_KEY)
    case None => None
    case Some(tag) =>
      if tag == "anything" then Some(Anything)
      else if tag == "any" then Some(Any(TagNamed(OrElse(GetText(v, "name"), "Object"))))
      else if tag == "arrayContaining" then
        match Get(v, "items") { case Some(Arr(items)) => Some(ArrayContaining(items)) case _ => None }
      else if tag == "objectContaining" then
        match Get(v, "subset") { case Some(Obj(subset)) => Some(ObjectContaining(subset)) case _ => None }
      else if tag == "stringContaining" then
        match GetText(v, "substring") { case Some(s) => Some(StringContaining(s)) case None => None }
      else if tag == "stringMatching" then
        match GetText(v, "substring") {
          case Some(s) => Some(StringMatching(Text(s)))
          case None =>
            match GetText(v, "regex")
            case Some(source) => Some(StringMatching(Regex(source, OrElse(GetText(v, "flags"), ""))))
            case None => None
        }
      else if tag == "closeTo" then
        match Get(v, "value") {
          case Some(Num(n)) =>
            var digits := match Get(v, "digits") { case Some(Num(PosInt(d))) => d case _ => 2 };
            Some(CloseTo(env.image(n), digits % 256))
          case _ => None
        }
      else if tag == "arrayOf" then
        match Get(v, "sample") { case Some(sample) => Some(ArrayOf(sample)) case None => None }
      else if tag == "custom" then
        match GetText(v, "name") {
          case Some(name) =>
            Some(Custom(name, match Get(v, "args") { case Some(Arr(args)) => args case _ => [] }))
          case None => None
        }
      else if tag == "not" then
        match Get(v, "inner") {
          case Some(inner) =>
            match Decoded(env, inner) { case Some(m) => Some(Not(m)) case None => None }
          case None => None
        }
      else None
  }

  // ---------------------------------------------------------------- the wire form

  function NameOf(tag: TypeTag): string {
    match tag
    case StringTag => "String"
    case NumberTag => "Number"
    case BooleanTag => "Boolean"
    case ObjectTag => "Object"
    case ArrayTag => "Array"
    case FunctionTag => "Function"
    case CustomTag(name) => name
  }

  function TagOf(m: Matcher): string {
    match m
    case Anything => "anything"
    case Any(_) => "any"
    case ArrayContaining(_) => "arrayContaining"
    case ObjectContaining(_) => "objectContaining"
    case StringContaining(_) => "stringContaining"
    case StringMatching(_) => "stringMatching"
    case CloseTo(_, _) => "closeTo"
    case ArrayOf(_) => "arrayOf"
    case Custom(_, _) => "custom"
    case Not(_) => "not"
  }

  function Payload(m: Matcher): map<string, Value>
    decreases m, 0
  {
    match m
    case Anything => map[]
    case Any(tag) => map["name" := Str(NameOf(tag))]
    case ArrayContaining(items) => map["items" := Arr(items)]
    case ObjectContaining(subset) => map["subset" := Obj(subset)]
    case StringContaining(needle) => map["substring" := Str(needle)]
    case StringMatching(Text(text)) => map["substring" := Str(text)]
    case StringMatching(Regex(source, flags)) => map["regex" := Str(source), "flags" := Str(flags)]
    case CloseTo(bits, digits) => map["value" := Num(Float(bits)), "digits" := Num(PosInt(digits))]
    case ArrayOf(sample) => map["sample" := sample]
    case Custom(name, args) => map["name" := Str(name), "args" := Arr(args)]
    case Not(inner) => map["inner" := Encoded(inner)]
  }

  /** The tagged object the script side builds for a matcher
      (crates/ferridriver-script/src/bindings/expect.rs:2434-2438, 2545-2640, 2870-2879, 2941-2955). */
  function Encoded(m: Matcher): Value
    decreases m, 1
  {
    Obj(Payload(m)[ASYM_TAG_KEY := Str(TagOf(m))])
  }

  /** The image of a double is that double. */
  ghost predicate ImagesDoubles(env: Env) {
    forall bits :: env.image(Float(bits)) == bits
  }

  /** A user class is not named like a built-in one, and digits fit a byte. */
  predicate Buildable(m: Matcher) {
    match m
    case Any(CustomTag(name)) => TagNamed(name) == CustomTag(name)
    case CloseTo(_, digits) => digits < 256
    case Not(inner) => Buildable(inner)
    case _ => true
  }

  lemma {:induction false} TagAndPayload(m: Matcher, key: string)
    requires key != ASYM_TAG_KEY
    ensures GetText(Encoded(m), ASYM_TAG_KEY) == Some(TagOf(m))
    ensures Get(Encoded(m), key) == if key in Payload(m) then Some(Payload(m)[key]) else None
  {}

  /** Decoding the wire form of any matcher gives that matcher back. */
  lemma {:induction false} DecodingUndoesEncoding(env: Env, m: Matcher)
    requires ImagesDoubles(env) && Buildable(m)
    ensures Decoded(env, Encoded(m)) == Some(m)
  {
    match m
    case Not(inner) =>
      DecodingUndoesEncoding(env, inner);
      TagAndPayload(m, "inner");
    case Anything => TagAndPayload(m, "name");
    case Any(tag) => TagAndPayload(m, "name");
    case ArrayContaining(_) => TagAndPayload(m, "items");
    case ObjectContaining(_) => TagAndPayload(m, "subset");
    case StringContaining(_) => TagAndPayload(m, "substring");
    case StringMatching(_) =>
      TagAndPayload(m, "substring");
      TagAndPayload(m, "regex");
      TagAndPayload(m, "flags");
    case CloseTo(_, _) =>
      TagAndPayload(m, "value");
      TagAndPayload(m, "digits");
    case ArrayOf(_) => TagAndPayload(m, "sample");
    case Custom(_, _) =>
      TagAndPayload(m, "name");
      TagAndPayload(m, "args");
  }

  // ---------------------------------------------------------------- matching

  predicate HasType(tag: TypeTag, v: Value) {
    match tag
    case StringTag => v.Str?
    case NumberTag => v.Num?
    case BooleanTag => v.Bool?
    case ObjectTag => v.Obj?
    case ArrayTag => v.Arr?
    case FunctionTag => false
    case CustomTag(_) => v.Obj?
  }

  predicate Contains(s: string, needle: string) {
    needle <= s || (s != "" && Contains(s[1..], needle))
  }

  predicate PatternMatches(env: Env, pattern: Pattern, s: string) {
    match pattern
    case Text(text) => s == text
    case Regex(source, flags) => env.regex(source, flags, s)
  }

  predicate SameNumber(env: Env, a: Number, b: Number) {
    env.image(a) == env.image(b) || (env.nan(env.image(a)) && env.nan(env.image(b)))
  }

  /** Whether the matcher decoded from `tagged` accepts `actual`. */
  predicate MatchesWith(env: Env, tagged: Value, m: Matcher, actual: Value)
    requires Decoded(env, tagged) == Some(m)
    decreases tagged, 0
  {
    match m
    case Anything => !actual.Null?
    case Any(tag) => HasType(tag, actual)
    case ArrayContaining(items) =>
      actual.Arr? &&
      forall i :: 0 <= i < |items| ==>
        exists j :: 0 <= j < |actual.items| && DeepEqualWith(env, actual.items[j], items[i])
    case ObjectContaining(subset) =>
      actual.Obj? &&
      forall k :: k in subset ==> k in actual.fields && DeepEqualWith(env, actual.fields[k], subset[k])
    case StringContaining(needle) => actual.Str? && Contains(actual.s, needle)
    case StringMatching(pattern) => actual.Str? && PatternMatches(env, pattern, actual.s)
    case CloseTo(bits, digits) => actual.Num? && env.close(env.image(actual.number), bits, digits)
    case ArrayOf(sample) =>
      actual.Arr? && forall i :: 0 <= i < |actual.items| ==> DeepEqualWith(env, actual.items[i], sample)
    case Custom(name, args) => env.custom.Some? && env.custom.value(name, args, actual)
    case Not(inner) => !MatchesWith(env, tagged.fields["inner"], inner, actual)
  }

  predicate DeepEqualWith(env: Env, actual: Value, expected: Value)
    decreases expected, 1
  {
    match Decoded(env, expected)
    case Some(m) => MatchesWith(env, expected, m, actual)
    case None =>
      match (actual, expected)
      case (Null, Null) => true
      case (Bool(a), Bool(b)) => a == b
      case (Num(a), Num(b)) => SameNumber(env, a, b)
      case (Str(a), Str(b)) => a == b
      case (Arr(a), Arr(b)) => |a| == |b| && forall i :: 0 <= i < |b| ==> DeepEqualWith(env, a[i], b[i])
      case (Obj(a), Obj(b)) => |a| == |b| && forall k :: k in a ==> k in b && DeepEqualWith(env, a[k], b[k])
      case _ => false
  }

  predicate MatchObjectWith(env: Env, actual: Value, expected: Value)
    decreases expected
  {
    match Decoded(env, expected)
    case Some(m) => MatchesWith(env, expected, m, actual)
    case None =>
      match (actual, expected)
      case (Obj(a), Obj(b)) => forall k :: k in b ==> k in a && MatchObjectWith(env, a[k], b[k])
      case (Arr(a), Arr(b)) => |a| == |b| && forall i :: 0 <= i < |b| ==> MatchObjectWith(env, a[i], b[i])
      case _ => DeepEqualWith(env, actual, expected)
  }

  /** Wherever it stands, a negated matcher accepts exactly what the matcher rejects. */
  lemma {:induction false} NotNegates(env: Env, m: Matcher, actual: Value)
    requires ImagesDoubles(env) && Buildable(m)
    ensures DeepEqualWith(env, actual, Encoded(Not(m))) <==> !DeepEqualWith(env, actual, Encoded(m))
    ensures MatchObjectWith(env, actual, Encoded(Not(m))) <==> !MatchObjectWith(env, actual, Encoded(m))
  {
    DecodingUndoesEncoding(env, m);
    DecodingUndoesEncoding(env, Not(m));
    TagAndPayload(Not(m), "inner");
  }

  // ---------------------------------------------------------------- without matchers: an equivalence

  /** No part of the value decodes to a matcher. */
  predicate TagFree(env: Env, v: Value) {
    Decoded(env, v).None? &&
    match v
    case Arr(items) => forall i :: 0 <= i < |items| ==> TagFree(env, items[i])
    case Obj(fields) => forall k :: k in fields ==> TagFree(env, fields[k])
    case _ => true
  }

  /** The value with every number replaced by its f64 image, all NaNs by one and the same. */
  function Imaged(env: Env, v: Value): Value {
    match v
    case Num(n) => Num(if env.nan(env.image(n)) then PosInt(0) else Float(env.image(n)))
    case Arr(items) => Arr(seq(|items|, i requires 0 <= i < |items| => Imaged(env, items[i])))
    case Obj(fields) => Obj(map k | k in fields :: Imaged(env, fields[k]))
    case _ => v
  }

  lemma {:induction false} SameSizeSubset<T>(a: set<T>, b: set<T>)
    requires a <= b && |a| == |b|
    ensures a == b
    decreases a
  {
    if a != {} {
      var x :| x in a;
      SameSizeSubset(a - {x}, b - {x});
    } else {
      assert b == {};
    }
  }

  lemma {:induction false} ArraysSame(env: Env, actual: Value, expected: Value)
    requires actual.Arr? && expected.Arr?
    ensures Imaged(env, actual) == Imaged(env, expected) <==>
            |actual.items| == |expected.items| &&
            forall i :: 0 <= i < |expected.items| ==> Imaged(env, actual.items[i]) == Imaged(env, expected.items[i])
  {
    var a, b := Imaged(env, actual).items, Imaged(env, expected).items;
    if a == b {
      forall i | 0 <= i < |expected.items|
        ensures Imaged(env, actual.items[i]) == Imaged(env, expected.items[i])
      {
        assert a[i] == b[i];
      }
    }
  }

  lemma {:induction false} ObjectsSame(env: Env, actual: Value, expected: Value)
    requires actual.Obj? && expected.Obj?
    ensures Imaged(env, actual) == Imaged(env, expected) <==>
            |actual.fields| == |expected.fields| &&
            forall k :: k in actual.fields ==>
              k in expected.fields && Imaged(env, actual.fields[k]) == Imaged(env, expected.fields[k])
  {
    var a, b := Imaged(env, actual).fields, Imaged(env, expected).fields;
    assert a.Keys == actual.fields.Keys && b.Keys == expected.fields.Keys;
    if a == b {
      forall k | k in actual.fields
        ensures k in expected.fields && Imaged(env, actual.fields[k]) == Imaged(env, expected.fields[k])
      {
        assert k in a && a[k] == b[k];
      }
      assert |actual.fields.Keys| == |expected.fields.Keys|;
    } else if |actual.fields| == |expected.fields| && actual.fields.Keys <= expected.fields.Keys {
      SameSizeSubset(actual.fields.Keys, expected.fields.Keys);
    }
  }

  /** Against an expected value without matchers, deep equality is equality up to the f64 image of numbers,
      whatever the actual value holds. */
  lemma {:induction false} DeepEqualIsSameImage(env: Env, actual: Value, expected: Value)
    requires TagFree(env, expected)
    ensures DeepEqualWith(env, actual, expected) <==> Imaged(env, actual) == Imaged(env, expected)
    decreases expected
  {
    if actual.Arr? && expected.Arr? {
      ArraysSame(env, actual, expected);
      forall i | 0 <= i < |expected.items| && i < |actual.items|
        ensures DeepEqualWith(env, actual.items[i], expected.items[i]) <==>
                Imaged(env, actual.items[i]) == Imaged(env, expected.items[i])
      {
        DeepEqualIsSameImage(env, actual.items[i], expected.items[i]);
      }
    } else if actual.Obj? && expected.Obj? {
      ObjectsSame(env, actual, expected);
      forall k | k in expected.fields && k in actual.fields
        ensures DeepEqualWith(env, actual.fields[k], expected.fields[k]) <==>
                Imaged(env, actual.fields[k]) == Imaged(env, expected.fields[k])
      {
        DeepEqualIsSameImage(env, actual.fields[k], expected.fields[k]);
      }
    }
  }

  /** Deep equality is an equivalence relation on values without matchers. */
  lemma {:induction false} DeepEqualIsEquivalence(env: Env, a: Value, b: Value, c: Value)
    requires TagFree(env, a) && TagFree(env, b) && TagFree(env, c)
    ensures DeepEqualWith(env, a, a)
    ensures DeepEqualWith(env, a, b) <==> DeepEqualWith(env, b, a)
    ensures DeepEqualWith(env, a, b) && DeepEqualWith(env, b, c) ==> DeepEqualWith(env, a, c)
  {
    DeepEqualIsSameImage(env, a, a);
    DeepEqualIsSameImage(env, a, b);
    DeepEqualIsSameImage(env, b, a);
    DeepEqualIsSameImage(env, b, c);
    DeepEqualIsSameImage(env, a, c);
  }

  /** A matcher breaks the symmetry: it accepts what does not accept it. */
  lemma {:induction false} MatchersAreOneSided(env: Env)
    ensures var anything := Obj(map[ASYM_TAG_KEY := Str("anything")]);
            DeepEqualWith(env, Bool(true), anything) && !DeepEqualWith(env, anything, Bool(true))
  {
    var anything := Obj(map[ASYM_TAG_KEY := Str("anything")]);
    assert Decoded(env, anything) == Some(Anything);
  }

  // ---------------------------------------------------------------- subset matching

  /** The actual value without the members that the expected object does not ask for. */
  function Pruned(env: Env, actual: Value, expected: Value): Value
    decreases expected
  {
    if Decoded(env, expected).Some? then actual
    else
      match (actual, expected)
      case (Obj(a), Obj(b)) => Obj(map k | k in a && k in b :: Pruned(env, a[k], b[k]))
      case (Arr(a), Arr(b)) =>
        if |a| == |b| then Arr(seq(|a|, i requires 0 <= i < |a| => Pruned(env, a[i], b[i]))) else actual
      case _ => actual
  }

  /** Subset matching is deep equality of what remains once the members nobody asked for are dropped. */
  lemma {:induction false} MatchObjectIsPrunedEquality(env: Env, actual: Value, expected: Value)
    ensures MatchObjectWith(env, actual, expected) <==> DeepEqualWith(env, Pruned(env, actual, expected), expected)
    decreases expected
  {
    if Decoded(env, expected).None? {
      if actual.Obj? && expected.Obj? {
        PrunedObject(env, actual, expected);
        forall k | k in expected.fields && k in actual.fields
          ensures MatchObjectWith(env, actual.fields[k], expected.fields[k]) <==>
                  DeepEqualWith(env, Pruned(env, actual.fields[k], expected.fields[k]), expected.fields[k])
        {
          MatchObjectIsPrunedEquality(env, actual.fields[k], expected.fields[k]);
        }
      } else if actual.Arr? && expected.Arr? && |actual.items| == |expected.items| {
        var kept := Pruned(env, actual, expected).items;
        forall i | 0 <= i < |expected.items|
          ensures MatchObjectWith(env, actual.items[i], expected.items[i]) <==>
                  DeepEqualWith(env, kept[i], expected.items[i])
        {
          MatchObjectIsPrunedEquality(env, actual.items[i], expected.items[i]);
        }
      }
    }
  }

  lemma {:induction false} PrunedObject(env: Env, actual: Value, expected: Value)
    requires actual.Obj? && expected.Obj? && Decoded(env, expected).None?
    ensures DeepEqualWith(env, Pruned(env, actual, expected), expected) <==>
            forall k :: k in expected.fields ==>
              k in actual.fields &&
              DeepEqualWith(env, Pruned(env, actual.fields[k], expected.fields[k]), expected.fields[k])
  {
    var kept := Pruned(env, actual, expected).fields;
    assert kept.Keys == actual.fields.Keys * expected.fields.Keys;
    if |kept| == |expected.fields| {
      SameSizeSubset(kept.Keys, expected.fields.Keys);
    } else {
      assert kept.Keys != expected.fields.Keys;
    }
  }

  /** Whatever deep equality accepts, tagged or not, subset matching accepts under the same host. */
  lemma {:induction false} DeepEqualImpliesMatchObject(env: Env, actual: Value, expected: Value)
    requires DeepEqualWith(env, actual, expected)
    ensures MatchObjectWith(env, actual, expected)
    decreases expected
  {
    if Decoded(env, expected).None? {
      if actual.Obj? && expected.Obj? {
        SameSizeSubset(actual.fields.Keys, expected.fields.Keys);
        forall k | k in expected.fields
          ensures k in actual.fields && MatchObjectWith(env, actual.fields[k], expected.fields[k])
        {
          DeepEqualImpliesMatchObject(env, actual.fields[k], expected.fields[k]);
        }
      } else if actual.Arr? && expected.Arr? {
        forall i | 0 <= i < |expected.items|
          ensures MatchObjectWith(env, actual.items[i], expected.items[i])
        {
          DeepEqualImpliesMatchObject(env, actual.items[i], expected.items[i]);
        }
      }
    }
  }
}
