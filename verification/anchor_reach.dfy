/** What becomes of every value of an anchored document, wherever it sits
    (crates/ferridriver-config/src/layer.rs:66-132, 1083-1193). */
module AnchorReach {
  import opened Json
  import opened Paths
  import opened Anchor

  // ---------------------------------------------------------------- the keys

  /** A key whose text is a path. */
  predicate PathKey(k: string) {
    k == "scriptRoot" || k == "artifactsRoot" || k == "executablePath" || k == "userDataDir" ||
    k == "discoverProfile" || k == "testDir" || k == "outputDir" || k == "snapshotDir" || k == "tsconfig" ||
    k == "storageState" || k == "cwd"
  }

  /** A key whose array holds paths. */
  predicate PathsKey(k: string) {
    k == "globalSetup" || k == "globalTeardown"
  }

  /** A key below which nothing is a path of the configuration. */
  predicate ForeignKey(k: string) {
    k == "env" || k == "headers" || k == "extraHTTPHeaders" || k == "settings" || k == "worldParameters" ||
    k == "virtualModules" || k == "virtual_modules"
  }

  /** A key that says nothing about its value. */
  predicate PlainKey(k: string) {
    !PathKey(k) && !PathsKey(k) && !ForeignKey(k) && k != "alias" && k != "paths" && k != "secrets" && k != "stylePath"
  }

  lemma RulesAre(k: string)
    ensures PathKey(k) <==> RuleFor(k) == Rule.Text
    ensures PathsKey(k) <==> RuleFor(k) == Texts
    ensures ForeignKey(k) <==> RuleFor(k) == Skip
    ensures k == "alias" <==> RuleFor(k) == MapValues
    ensures k == "paths" <==> RuleFor(k) == Specs
    ensures k == "secrets" <==> RuleFor(k) == FileMember
    ensures k == "stylePath" <==> RuleFor(k) == TextOrTexts
    ensures PlainKey(k) <==> RuleFor(k) == Descend
  {
  }

  // ---------------------------------------------------------------- one text

  /** Texts that are left alone: empty, absolute, relative to a home directory, or with a template in them. */
  predicate Exempt(text: string) {
    text == "" || text[0] == '/' || text[0] == '~' ||
    exists i :: 0 <= i < |text| - 1 && text[i] == '$' && text[i + 1] == '{'
  }

  /** The text is exempt and stays, or becomes the absolute path it means below the directory. */
  predicate Placed(text: string, after: string, at: Place) {
    if Exempt(text) then after == text
    else IsAbsolute(after) && Components(after) == Meaning(Components(Joined(at.dir, text)))
  }

  /** A text is placed, any other value stays. */
  predicate TextPlaced(before: Value, after: Value, at: Place) {
    if before.Str? then after.Str? && Placed(before.s, after.s, at) else after == before
  }

  lemma InPlacePlaces(v: Value, at: Place)
    requires IsAbsolute(at.dir)
    ensures TextPlaced(v, InPlace(v, at), at)
  {
    if v.Str? && !Exempt(v.s) {
      AnchoredMeans(v.s, at);
    }
  }

  /** An entry of `extensions.paths`: one that starts with `~` is expanded, one that looks like a path is placed, and
      a package name stays. */
  predicate SpecPlaced(before: Value, after: Value, at: Place) {
    if !before.Str? then after == before
    else if before.s != "" && before.s[0] == '~' then after == Str(Tilde(before.s, at))
    else if PathLike(before.s) then TextPlaced(before, after, at)
    else after == before
  }

  predicate PathLike(spec: string) {
    spec == "." || spec == ".." || (|spec| >= 1 && spec[0] == '/') ||
    (|spec| >= 2 && spec[0] == '.' && spec[1] == '/') ||
    (|spec| >= 3 && spec[0] == '.' && spec[1] == '.' && spec[2] == '/')
  }

  lemma SpecPlaces(v: Value, at: Place)
    requires IsAbsolute(at.dir)
    ensures SpecPlaced(v, Spec(v, at), at)
  {
    InPlacePlaces(v, at);
    if v.Str? {
      assert PathLike(v.s) <==> LooksLikePath(v.s);
    }
  }

  // ---------------------------------------------------------------- one member

  predicate ItemsPlaced(before: Value, after: Value, at: Place) {
    if before.Arr? then
      after.Arr? && |after.items| == |before.items| &&
      forall i :: 0 <= i < |before.items| ==> TextPlaced(before.items[i], after.items[i], at)
    else after == before
  }

  predicate SpecsPlaced(before: Value, after: Value, at: Place) {
    if before.Arr? then
      after.Arr? && |after.items| == |before.items| &&
      forall i :: 0 <= i < |before.items| ==> SpecPlaced(before.items[i], after.items[i], at)
    else after == before
  }

  /** The members of a table: the texts of all of them are placed, or of one of them. */
  predicate MembersPlaced(before: Value, after: Value, at: Place, only: Option<string>) {
    if before.Obj? then
      after.Obj? && after.fields.Keys == before.fields.Keys &&
      forall k :: k in before.fields ==>
        if only.None? || only.value == k then TextPlaced(before.fields[k], after.fields[k], at)
        else after.fields[k] == before.fields[k]
    else after == before
  }

  /** What the key of a member asks of its value. */
  predicate MemberPlaced(k: string, before: Value, after: Value, at: Place) {
    (PathKey(k) ==> TextPlaced(before, after, at)) &&
    (PathsKey(k) ==> ItemsPlaced(before, after, at)) &&
    (k == "stylePath" ==> if before.Arr? then ItemsPlaced(before, after, at) else TextPlaced(before, after, at)) &&
    (k == "alias" ==> MembersPlaced(before, after, at, None)) &&
    (k == "secrets" ==> MembersPlaced(before, after, at, Some("file"))) &&
    (k == "paths" ==> SpecsPlaced(before, after, at)) &&
    (ForeignKey(k) ==> after == before) &&
    (PlainKey(k) && !before.Obj? && !before.Arr? ==> after == before)
  }

  lemma ItemsPlace(v: Value, at: Place)
    requires IsAbsolute(at.dir)
    ensures ItemsPlaced(v, AnchoredItems(v, at), at) && SpecsPlaced(v, AnchoredSpecs(v, at), at)
  {
    if v.Arr? {
      forall i | 0 <= i < |v.items|
        ensures TextPlaced(v.items[i], AnchoredItems(v, at).items[i], at)
        ensures SpecPlaced(v.items[i], AnchoredSpecs(v, at).items[i], at)
      {
        InPlacePlaces(v.items[i], at);
        SpecPlaces(v.items[i], at);
      }
    }
  }

  lemma MembersPlace(v: Value, at: Place)
    requires IsAbsolute(at.dir)
    ensures MembersPlaced(v, AnchoredValues(v, at), at, None)
    ensures MembersPlaced(v, AnchoredField(v, "file", at), at, Some("file"))
  {
    if v.Obj? {
      forall k | k in v.fields ensures TextPlaced(v.fields[k], InPlace(v.fields[k], at), at) {
        InPlacePlaces(v.fields[k], at);
      }
    }
  }

  lemma MemberPlaces(k: string, v: Value, at: Place)
    requires IsAbsolute(at.dir)
    ensures MemberPlaced(k, v, AnchoredMember(RuleFor(k), v, at), at)
  {
    RulesAre(k);
    RulePlaces(RuleFor(k), v, at);
  }

  /** What each rule does to a value. */
  lemma RulePlaces(rule: Rule, v: Value, at: Place)
    requires IsAbsolute(at.dir)
    ensures var after := AnchoredMember(rule, v, at);
            match rule
            case Text => TextPlaced(v, after, at)
            case Texts => ItemsPlaced(v, after, at)
            case TextOrTexts => if v.Arr? then ItemsPlaced(v, after, at) else TextPlaced(v, after, at)
            case MapValues => MembersPlaced(v, after, at, None)
            case FileMember => MembersPlaced(v, after, at, Some("file"))
            case Specs => SpecsPlaced(v, after, at)
            case Skip => after == v
            case Descend => !v.Obj? && !v.Arr? ==> after == v
  {
    match rule
    case Text => InPlacePlaces(v, at);
    case Texts => ItemsPlace(v, at);
    case TextOrTexts =>
      ItemsPlace(v, at);
      InPlacePlaces(v, at);
    case MapValues => MembersPlace(v, at);
    case FileMember => MembersPlace(v, at);
    case Specs => ItemsPlace(v, at);
    case Skip =>
    case Descend =>
  }

  // ---------------------------------------------------------------- anywhere in a document

  /** The steps pass through entries and plain keys only. */
  predicate Open(steps: seq<Step>) {
    forall i :: 0 <= i < |steps| && steps[i].Key? ==> PlainKey(steps[i].name)
  }

  lemma {:induction false} FindAnchored(v: Value, at: Place, steps: seq<Step>)
    requires Open(steps)
    ensures Find(AnchoredDoc(v, at), steps) ==
            (var found := Find(v, steps); if found.Some? then Some(AnchoredDoc(found.value, at)) else None)
    decreases |steps|
  {
    if steps != [] {
      match steps[0]
      case Key(name) =>
        RulesAre(name);
        if v.Obj? && name in v.fields {
          FindAnchored(v.fields[name], at, steps[1..]);
        }
      case Index(i) =>
        if v.Arr? && i < |v.items| {
          FindAnchored(v.items[i], at, steps[1..]);
        }
    }
  }

  /** Every table of the configuration keeps its keys, and each member becomes what its key asks, at any depth. */
  lemma AnchoredEverywhere(v: Value, at: Place, steps: seq<Step>, key: string)
    requires IsAbsolute(at.dir) && Open(steps)
    requires Find(v, steps).Some? && Find(v, steps).value.Obj? && key in Find(v, steps).value.fields
    ensures var before, after := Find(v, steps).value, Find(AnchoredDoc(v, at), steps);
            after.Some? && after.value.Obj? && after.value.fields.Keys == before.fields.Keys &&
            MemberPlaced(key, before.fields[key], after.value.fields[key], at)
  {
    FindAnchored(v, at, steps);
    MemberPlaces(key, Find(v, steps).value.fields[key], at);
  }
}
