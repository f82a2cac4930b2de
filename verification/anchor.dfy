/** Anchoring the relative paths of a configuration document to its own directory
    (crates/ferridriver-config/src/layer.rs:1083-1211). */
module Anchor {
  import opened Json
  import opened Paths

  const PATH_KEYS: set<string> := {
    "scriptRoot", "artifactsRoot", "executablePath", "userDataDir", "discoverProfile", "testDir", "outputDir",
    "snapshotDir", "tsconfig", "storageState", "cwd"
  }
  const PATH_ARRAY_KEYS: set<string> := {"globalSetup", "globalTeardown"}
  const PATH_STRING_OR_ARRAY_KEYS: set<string> := {"stylePath"}
  const OPAQUE_MAP_KEYS: set<string> := {"env", "headers", "extraHTTPHeaders", "settings", "worldParameters"}

  /** Where relative paths are resolved: a config file's directory, and the user's home if known. */
  datatype Place = Place(dir: string, home: Option<string>)

  // ---------------------------------------------------------------- single texts

  predicate HasTemplate(text: string) {
    exists i :: 0 <= i < |text| - 1 && text[i] == '$' && text[i + 1] == '{'
  }

  /** `None` when the text must be left alone. */
  function Anchored(text: string, at: Place): Option<string> {
    if text == "" || text[0] == '~' || HasTemplate(text) || IsAbsolute(text) then None
    else Some(NormalizedText(Joined(at.dir, text)))
  }

  /** `shellexpand::tilde`. */
  function Tilde(text: string, at: Place): string {
    if text != "" && text[0] == '~' && (|text| == 1 || text[1] == '/') && at.home.Some? then at.home.value + text[1..]
    else text
  }

  predicate LooksLikePath(spec: string) {
    "./" <= spec || "../" <= spec || "/" <= spec || spec == "." || spec == ".."
  }

  function InPlace(v: Value, at: Place): Value {
    if v.Str? && Anchored(v.s, at).Some? then Str(Anchored(v.s, at).value) else v
  }

  function Spec(v: Value, at: Place): Value {
    if !v.Str? then v
    else if v.s != "" && v.s[0] == '~' then Str(Tilde(v.s, at))
    else if LooksLikePath(v.s) then InPlace(v, at)
    else v
  }

  // ---------------------------------------------------------------- documents

  function AnchoredDoc(v: Value, at: Place): Value
    decreases v, 1
  {
    match v
    case Obj(fields) => Obj(map k | k in fields :: AnchoredMember(RuleFor(k), fields[k], at))
    case Arr(items) => Arr(seq(|items|, i requires 0 <= i < |items| => AnchoredDoc(items[i], at)))
    case _ => v
  }

  /** What the key of a member says about its value (crates/ferridriver-config/src/layer.rs:1083-1122). */
  datatype Rule = MapValues | Specs | Skip | FileMember | Text | Texts | TextOrTexts | Descend

  function RuleFor(key: string): Rule {
    if key == "alias" then MapValues
    else if key == "paths" then Specs
    else if key == "virtualModules" || key == "virtual_modules" then Skip
    else if key == "secrets" then FileMember
    else if key in OPAQUE_MAP_KEYS then Skip
    else if key in PATH_KEYS then Text
    else if key in PATH_ARRAY_KEYS then Texts
    else if key in PATH_STRING_OR_ARRAY_KEYS then TextOrTexts
    else Descend
  }

  function AnchoredMember(rule: Rule, child: Value, at: Place): Value
    decreases child, 2
  {
    match rule
    case MapValues => AnchoredValues(child, at)
    case Specs => AnchoredSpecs(child, at)
    case Skip => child
    case FileMember => AnchoredField(child, "file", at)
    case Text => InPlace(child, at)
    case Texts => AnchoredItems(child, at)
    case TextOrTexts => if child.Arr? then AnchoredItems(child, at) else InPlace(child, at)
    case Descend => AnchoredDoc(child, at)
  }

  function AnchoredValues(v: Value, at: Place): Value {
    if v.Obj? then Obj(map k | k in v.fields :: InPlace(v.fields[k], at)) else v
  }

  function AnchoredField(v: Value, key: string, at: Place): Value {
    if v.Obj? && key in v.fields then Obj(v.fields[key := InPlace(v.fields[key], at)]) else v
  }

  function AnchoredItems(v: Value, at: Place): Value {
    if v.Arr? then Arr(seq(|v.items|, i requires 0 <= i < |v.items| => InPlace(v.items[i], at))) else v
  }

  function AnchoredSpecs(v: Value, at: Place): Value {
    if v.Arr? then Arr(seq(|v.items|, i requires 0 <= i < |v.items| => Spec(v.items[i], at))) else v
  }

  // ---------------------------------------------------------------- the code that rewrites in place

  method AnchorPaths(value: Value, at: Place) returns (result: Value)
    ensures result == AnchoredDoc(value, at)
    decreases value, 1
  {
    match value {
      case Obj(fields) =>
        var out, todo := fields, fields.Keys;
        ghost var done := {};
        while todo != {}
          invariant todo !! done && todo + done == fields.Keys == out.Keys
          invariant forall k :: k in out ==>
                    out[k] == if k in done then AnchoredMember(RuleFor(k), fields[k], at) else fields[k]
          decreases todo
        {
          var key :| key in todo;
          var child := AnchorMember(key, fields[key], at);
          out := out[key := child];
          todo, done := todo - {key}, done + {key};
        }
        assert out == AnchoredDoc(value, at).fields;
        result := Obj(out);
      case Arr(items) =>
        var out := [];
        for n := 0 to |items|
          invariant |out| == n && forall i :: 0 <= i < n ==> out[i] == AnchoredDoc(items[i], at)
        {
          var item := AnchorPaths(items[n], at);
          out := out + [item];
        }
        assert out == AnchoredDoc(value, at).items;
        result := Arr(out);
      case _ =>
        result := value;
    }
  }

  method AnchorMember(key: string, child: Value, at: Place) returns (result: Value)
    ensures result == AnchoredMember(RuleFor(key), child, at)
    decreases child, 2
  {
    match RuleFor(key) {
      case MapValues => result := AnchorMapValues(child, at);
      case Specs => result := AnchorExtensionSpecs(child, at);
      case Skip => result := child;
      case FileMember => result := AnchoredField(child, "file", at);
      case Text => result := InPlace(child, at);
      case Texts => result := AnchorArray(child, at);
      case TextOrTexts =>
        if child.Arr? {
          result := AnchorArray(child, at);
        } else {
          result := InPlace(child, at);
        }
      case Descend => result := AnchorPaths(child, at);
    }
  }

  method AnchorMapValues(value: Value, at: Place) returns (result: Value)
    ensures result == AnchoredValues(value, at)
  {
    if !value.Obj? {
      return value;
    }
    var out, todo := value.fields, value.fields.Keys;
    ghost var done := {};
    while todo != {}
      invariant todo !! done && todo + done == value.fields.Keys == out.Keys
      invariant forall k :: k in out ==> out[k] == if k in done then InPlace(value.fields[k], at) else value.fields[k]
      decreases todo
    {
      var key :| key in todo;
      out := out[key := InPlace(value.fields[key], at)];
      todo, done := todo - {key}, done + {key};
    }
    result := Obj(out);
    assert out == AnchoredValues(value, at).fields;
  }

  method AnchorArray(value: Value, at: Place) returns (result: Value)
    ensures result == AnchoredItems(value, at)
  {
    if !value.Arr? {
      return value;
    }
    var out := value.items;
    for n := 0 to |out|
      invariant |out| == |value.items|
      invariant forall i :: 0 <= i < |out| ==> out[i] == if i < n then InPlace(value.items[i], at) else value.items[i]
    {
      out := out[n := InPlace(out[n], at)];
    }
    assert out == AnchoredItems(value, at).items;
    result := Arr(out);
  }

  method AnchorExtensionSpecs(value: Value, at: Place) returns (result: Value)
    ensures result == AnchoredSpecs(value, at)
  {
    if !value.Arr? {
      return value;
    }
    var out := value.items;
    for n := 0 to |out|
      invariant |out| == |value.items|
      invariant forall i :: 0 <= i < |out| ==> out[i] == if i < n then Spec(value.items[i], at) else value.items[i]
    {
      if !out[n].Str? {
        continue;
      }
      var text := out[n].s;
      if text != "" && text[0] == '~' {
        out := out[n := Str(Tilde(text, at))];
        continue;
      }
      if LooksLikePath(text) {
        out := out[n := InPlace(out[n], at)];
      }
    }
    assert out == AnchoredSpecs(value, at).items;
    result := Arr(out);
  }

  // ---------------------------------------------------------------- anchoring is final

  predicate RootedPlace(at: Place) {
    IsAbsolute(at.dir) && (at.home.Some? ==> IsAbsolute(at.home.value))
  }

  /** A text that has been anchored is absolute, and any other is left alone from every directory. */
  lemma InPlaceFinal(v: Value, at: Place, later: Place)
    requires IsAbsolute(at.dir)
    ensures InPlace(InPlace(v, at), later) == InPlace(v, at)
  {
    if v.Str? && Anchored(v.s, at).Some? {
      RenderedAbsolute(Joined(at.dir, v.s));
    }
  }

  /** An anchored text means what the text means below the directory: it reads as the components of the two
      joined, with `.` and `..` resolved. */
  lemma AnchoredMeans(text: string, at: Place)
    requires IsAbsolute(at.dir) && Anchored(text, at).Some?
    ensures Components(Anchored(text, at).value) == Meaning(Components(Joined(at.dir, text)))
    ensures IsAbsolute(Anchored(text, at).value)
  {
    var path := Components(Joined(at.dir, text));
    ComponentsAreLegal(Joined(at.dir, text));
    NormalizedRooted(path);
    NormalizedIsLegal(path);
    ComponentsOfRendered(Normalized(path));
    RenderedAbsolute(Joined(at.dir, text));
  }

  lemma SpecFinal(v: Value, at: Place, later: Place)
    requires RootedPlace(at) && at.home == later.home
    ensures Spec(Spec(v, at), later) == Spec(v, at)
  {
    InPlaceFinal(v, at, later);
    if v.Str? && Anchored(v.s, at).Some? {
      RenderedAbsolute(Joined(at.dir, v.s));
    }
  }

  /** Anchoring a document against an absolute directory is final: anchoring the result against
      any directory changes nothing. */
  lemma {:induction false} AnchoringIsFinal(v: Value, at: Place, later: Place)
    requires RootedPlace(at) && at.home == later.home
    ensures AnchoredDoc(AnchoredDoc(v, at), later) == AnchoredDoc(v, at)
    decreases v, 1
  {
    var once := AnchoredDoc(v, at);
    match v
    case Obj(fields) =>
      forall k | k in fields ensures AnchoredMember(RuleFor(k), once.fields[k], later) == once.fields[k] {
        MemberFinal(RuleFor(k), fields[k], at, later);
      }
    case Arr(items) =>
      forall i | 0 <= i < |items| ensures AnchoredDoc(once.items[i], later) == once.items[i] {
        AnchoringIsFinal(items[i], at, later);
      }
      assert AnchoredDoc(once, later).items == once.items;
    case _ =>
  }

  lemma ValuesFinal(v: Value, at: Place, later: Place)
    requires IsAbsolute(at.dir)
    ensures AnchoredValues(AnchoredValues(v, at), later) == AnchoredValues(v, at)
    ensures AnchoredField(AnchoredField(v, "file", at), "file", later) == AnchoredField(v, "file", at)
  {
    if v.Obj? {
      forall k | k in v.fields { InPlaceFinal(v.fields[k], at, later); }
      assert AnchoredValues(AnchoredValues(v, at), later).fields == AnchoredValues(v, at).fields;
    }
  }

  lemma ItemsFinal(v: Value, at: Place, later: Place)
    requires RootedPlace(at) && at.home == later.home
    ensures AnchoredItems(AnchoredItems(v, at), later) == AnchoredItems(v, at)
    ensures AnchoredSpecs(AnchoredSpecs(v, at), later) == AnchoredSpecs(v, at)
  {
    if v.Arr? {
      forall i | 0 <= i < |v.items|
        ensures InPlace(InPlace(v.items[i], at), later) == InPlace(v.items[i], at)
        ensures Spec(Spec(v.items[i], at), later) == Spec(v.items[i], at)
      {
        InPlaceFinal(v.items[i], at, later);
        SpecFinal(v.items[i], at, later);
      }
      assert AnchoredItems(AnchoredItems(v, at), later).items == AnchoredItems(v, at).items;
      assert AnchoredSpecs(AnchoredSpecs(v, at), later).items == AnchoredSpecs(v, at).items;
    }
  }

  lemma {:induction false} MemberFinal(rule: Rule, v: Value, at: Place, later: Place)
    requires RootedPlace(at) && at.home == later.home
    ensures AnchoredMember(rule, AnchoredMember(rule, v, at), later) == AnchoredMember(rule, v, at)
    decreases v, 2
  {
    match rule
    case Skip =>
    case MapValues => ValuesFinal(v, at, later);
    case FileMember => ValuesFinal(v, at, later);
    case Specs => ItemsFinal(v, at, later);
    case Texts => ItemsFinal(v, at, later);
    case Text => InPlaceFinal(v, at, later);
    case TextOrTexts =>
      ItemsFinal(v, at, later);
      InPlaceFinal(v, at, later);
    case Descend => AnchoringIsFinal(v, at, later);
  }

  // ---------------------------------------------------------------- what anchoring never touches

  /** One step into a document. */
  datatype Step = Key(name: string) | Index(i: nat)

  function Find(v: Value, steps: seq<Step>): Option<Value> {
    if steps == [] then Some(v)
    else
      match steps[0]
      case Key(name) => if v.Obj? && name in v.fields then Find(v.fields[name], steps[1..]) else None
      case Index(i) => if v.Arr? && i < |v.items| then Find(v.items[i], steps[1..]) else None
  }

  /** The steps lead strictly inside a map whose keys belong to the operator. */
  predicate InsideOpaqueMap(steps: seq<Step>) {
    exists i :: 0 <= i < |steps| - 1 && steps[i].Key? && steps[i].name in OPAQUE_MAP_KEYS
  }

  predicate Retexted(v: Value, w: Value) {
    w == v || (v.Str? && w.Str?)
  }

  lemma OnlyTextsChange(v: Value, at: Place)
    ensures Retexted(v, InPlace(v, at)) && Retexted(v, Spec(v, at))
  {
  }

  /** `w` is `v` with at most its own text, or the texts one level down, rewritten. */
  predicate ShallowlyRetexted(v: Value, w: Value) {
    Retexted(v, w) ||
    (v.Obj? && w.Obj? && v.fields.Keys == w.fields.Keys &&
     forall k :: k in v.fields ==> Retexted(v.fields[k], w.fields[k])) ||
    (v.Arr? && w.Arr? && |v.items| == |w.items| &&
     forall i :: 0 <= i < |v.items| ==> Retexted(v.items[i], w.items[i]))
  }

  lemma ShallowRetexts(rule: Rule, v: Value, at: Place)
    requires rule != Descend
    ensures ShallowlyRetexted(v, AnchoredMember(rule, v, at))
  {
    OnlyTextsChange(v, at);
    if v.Obj? {
      forall k | k in v.fields { OnlyTextsChange(v.fields[k], at); }
    } else if v.Arr? {
      forall i | 0 <= i < |v.items| { OnlyTextsChange(v.items[i], at); }
    }
  }

  lemma ShallowUntouched(v: Value, w: Value, steps: seq<Step>)
    requires |steps| >= 2 && ShallowlyRetexted(v, w)
    ensures Find(w, steps) == Find(v, steps)
  {
    assert forall x, y :: Retexted(x, y) ==> Find(y, steps[1..]) == Find(x, steps[1..]);
  }

  lemma {:induction false} MemberUntouched(k: string, v: Value, rest: seq<Step>, at: Place)
    requires InsideOpaqueMap([Key(k)] + rest)
    ensures Find(AnchoredMember(RuleFor(k), v, at), rest) == Find(v, rest)
    decreases |rest|, 1
  {
    if k !in OPAQUE_MAP_KEYS {
      InsideRest([Key(k)] + rest);
      assert ([Key(k)] + rest)[1..] == rest;
      var rule := RuleFor(k);
      if rule == Descend {
        OpaqueMapsUntouched(v, rest, at);
      } else {
        ShallowRetexts(rule, v, at);
        ShallowUntouched(v, AnchoredMember(rule, v, at), rest);
      }
    }
  }

  /** Nothing strictly inside an operator-keyed map changes, wherever in the document it sits. */
  lemma {:induction false} OpaqueMapsUntouched(v: Value, steps: seq<Step>, at: Place)
    requires InsideOpaqueMap(steps)
    ensures Find(AnchoredDoc(v, at), steps) == Find(v, steps)
    decreases |steps|, 0
  {
    var rest := steps[1..];
    match steps[0]
    case Key(k) =>
      if v.Obj? && k in v.fields {
        assert steps == [Key(k)] + rest;
        MemberUntouched(k, v.fields[k], rest, at);
      }
    case Index(i) =>
      if v.Arr? && i < |v.items| {
        InsideRest(steps);
        OpaqueMapsUntouched(v.items[i], rest, at);
      }
  }

  lemma InsideRest(steps: seq<Step>)
    requires InsideOpaqueMap(steps) && !(steps[0].Key? && steps[0].name in OPAQUE_MAP_KEYS)
    ensures InsideOpaqueMap(steps[1..]) && |steps| > 2
  {
    var i :| 0 <= i < |steps| - 1 && steps[i].Key? && steps[i].name in OPAQUE_MAP_KEYS;
    assert steps[1..][i - 1] == steps[i];
  }
}
