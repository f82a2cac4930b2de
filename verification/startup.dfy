/** The two-phase startup: fold the documents alone, then the whole stack
    (crates/ferridriver-config/src/layer.rs: `resolve`, `check_module_document`,
    `check_contributed_defaults`, `normalize`; crates/ferridriver-config/src/lib.rs: `Startup`). */
module Startup {
  import opened Json
  import opened LayerMerge
  import opened LayerLedger
  import opened ExtendsWalk
  import opened Paths
  import opened Anchor
  import opened BrowserDefaults

  // ---------------------------------------------------------------- one file

  /** `expand_device_keys` replaces the device name of a `use` bag; which keys it writes is not modelled. */
  type Expand = map<string, Value> -> map<string, Value>

  function ExpandUse(bag: map<string, Value>, expand: Expand): map<string, Value> {
    if "use" in bag && bag["use"].Obj? then bag["use" := Obj(expand(bag["use"].fields))] else bag
  }

  /** A section's own `use` and the one under its `browser`. */
  function ExpandSection(section: map<string, Value>, expand: Expand): map<string, Value> {
    var s := ExpandUse(section, expand);
    if "browser" in s && s["browser"].Obj? then s["browser" := Obj(ExpandUse(s["browser"].fields, expand))] else s
  }

  function ExpandProject(project: Value, expand: Expand): Value {
    if project.Obj? then Obj(ExpandSection(project.fields, expand)) else project
  }

  /** Move `test.use` into `test.browser.use`, whose own keys win. */
  function HoistUse(test: map<string, Value>): map<string, Value> {
    if "use" !in test || !test["use"].Obj? then test
    else
      var rest := test - {"use"};
      var browser := if "browser" in rest then rest["browser"] else Obj(map[]);
      if !browser.Obj? then rest
      else
        var target := if "use" in browser.fields then browser.fields["use"] else Obj(map[]);
        if !target.Obj? then rest["browser" := browser]
        else rest["browser" := Obj(browser.fields["use" := Obj(test["use"].fields + target.fields)])]
  }

  function NormalizedTest(test: Value, expand: Expand): Value {
    if !test.Obj? then test
    else
      var s := ExpandSection(test.fields, expand);
      var t := if "projects" in s && s["projects"].Arr? then
                 var projects := s["projects"].items;
                 var expanded := seq(|projects|, i requires 0 <= i < |projects| => ExpandProject(projects[i], expand));
                 s["projects" := Arr(expanded)]
               else s;
      Obj(HoistUse(t))
  }

  function NormalizedDoc(v: Value, expand: Expand): Value {
    if !v.Obj? then v
    else
      var f := if "extensions" in v.fields && v.fields["extensions"].Arr? then
                 v.fields["extensions" := Obj(map["paths" := v.fields["extensions"]])]
               else v.fields;
      Obj(if "test" in f then f["test" := NormalizedTest(f["test"], expand)] else f)
  }

  function WithoutExtends(v: Value): Value {
    if v.Obj? then Obj(v.fields - {"extends"}) else v
  }

  function Texts(items: seq<Value>): seq<string> {
    if items == [] then []
    else (if items[0].Str? then [items[0].s] else []) + Texts(items[1..])
  }

  /** `take_extends`: the files named, resolved against the file's directory. */
  function Extended(v: Value, at: Place): seq<string> {
    if !v.Obj? || "extends" !in v.fields then []
    else
      var raw := v.fields["extends"];
      var entries := if raw.Str? then [raw.s] else if raw.Arr? then Texts(raw.items) else [];
      seq(|entries|, i requires 0 <= i < |entries| => ResolvedAgainst(entries[i], at))
  }

  function ResolvedAgainst(entry: string, at: Place): string {
    var expanded := Tilde(entry, at);
    if IsAbsolute(expanded) then expanded else NormalizedText(Joined(at.dir, expanded))
  }

  // ---------------------------------------------------------------- the stack

  /** What every resolve of one startup reads. `files` holds each readable file as parsed, `modules`
      the paths that need a module loader, `dir` the directory of a path, `schema` says which
      contributions are valid and `accepts` which merged documents deserialize and validate. */
  datatype Stack = Stack(
    discovered: seq<ConfigLayer>,
    files: map<string, Value>,
    modules: set<string>,
    canon: map<string, string>,
    dir: string -> string,
    home: Option<string>,
    overrides: seq<Layer>,
    expand: Expand,
    schema: Value -> bool,
    accepts: Value -> bool)

  const SETTLED: seq<Path> := [["extensions"], ["bundler"], ["scripting"], ["test", "moduleAliases"]]

  /** None of the keys a module and an extension default may not set. */
  predicate Refrains(v: Value) {
    v.Obj? && forall i :: 0 <= i < |SETTLED| ==> At(v, SETTLED[i]) == None
  }

  /** A file as the fold reads it: without a loader no module can be parsed, and a module that sets a
      settled key is refused. */
  function Read(s: Stack, path: string, loader: bool): Option<ParsedFile> {
    if path !in s.files || (path in s.modules && (!loader || !Refrains(s.files[path]))) then None
    else
      var at := Place(s.dir(path), s.home);
      var raw := s.files[path];
      Some(ParsedFile(Extended(raw, at), Prepared(raw, s.expand, at)))
  }

  /** What is merged of a file: no `extends`, normalized, its paths anchored. */
  function Prepared(raw: Value, expand: Expand, at: Place): Value {
    AnchoredDoc(NormalizedDoc(WithoutExtends(raw), expand), at)
  }

  function DiskOf(s: Stack, loader: bool): Disk {
    Disk(map p | p in s.files && Read(s, p, loader).Some? :: Read(s, p, loader).value, s.canon)
  }

  /** `check_contributed_defaults`. */
  predicate Contributes(s: Stack, payload: Value) {
    Refrains(payload) && s.schema(NormalizedDoc(payload, s.expand))
  }

  datatype Contribution = Contribution(package: string, payload: Value)

  function DefaultLayers(s: Stack, defaults: seq<Contribution>): seq<Layer> {
    seq(|defaults|, i requires 0 <= i < |defaults| =>
      Layer(Extension(defaults[i].package), NormalizedDoc(defaults[i].payload, s.expand)))
  }

  /** The layers whose path is not one of these. */
  function Without(paths: set<string>, layers: seq<ConfigLayer>): seq<ConfigLayer> {
    if layers == [] then []
    else
      Without(paths, layers[..|layers| - 1]) +
      if layers[|layers| - 1].path in paths then [] else [layers[|layers| - 1]]
  }

  function Roots(s: Stack, documentsOnly: bool): seq<ConfigLayer> {
    if documentsOnly then Without(s.modules, s.discovered) else s.discovered
  }

  /** The document one `resolve` merges, when every contribution is valid and every file can be read. The
      documents-only resolve runs before there is a module loader, the other with one. */
  function MergedDocument(s: Stack, defaults: seq<Contribution>, documentsOnly: bool): Option<Value> {
    if exists i :: 0 <= i < |defaults| && !Contributes(s, defaults[i].payload) then None
    else
      var d := DiskOf(s, !documentsOnly);
      var walk := AppliedAll(d, Roots(s, documentsOnly), Walk({}, []));
      if walk.Err? then None
      else
        Some(WithBrowserDefaults(Folded(DefaultLayers(s, defaults) + LayersOf(d, walk.value.layers) + s.overrides)))
  }

  /** The document of one `resolve`, or the fact that it failed: the merged document must also
      deserialize and validate. */
  function Resolved(s: Stack, defaults: seq<Contribution>, documentsOnly: bool): Option<Value> {
    match MergedDocument(s, defaults, documentsOnly)
    case Some(doc) => if s.accepts(doc) then Some(doc) else None
    case None => None
  }

  // ---------------------------------------------------------------- the settled keys

  /** Two documents agree at every key the first phase settles. */
  predicate SameSettings(a: Value, b: Value) {
    Member(a, "extensions") == Member(b, "extensions") &&
    Member(a, "bundler") == Member(b, "bundler") &&
    Member(a, "scripting") == Member(b, "scripting") &&
    Nested(a, "test", "moduleAliases") == Nested(b, "test", "moduleAliases")
  }

  lemma AtIsMember(v: Value)
    ensures forall k :: At(v, [k]) == Member(v, k)
    ensures At(v, ["test", "moduleAliases"]) == Nested(v, "test", "moduleAliases")
  {
    var p := ["test", "moduleAliases"];
    assert p[1..] == ["moduleAliases"] && p[1..][1..] == [];
    assert forall k: string :: [k][1..] == [];
    var section := Member(v, "test");
    if section.Some? {
      var k := "moduleAliases";
      assert [k][1..] == [] && At(section.value, [k]) == Member(section.value, k);
      assert At(v, p) == At(section.value, [k]);
    }
  }

  /** A document without any setting, and one with all of them. */
  const BARE: Value := Obj(map[])
  const FULL: Value :=
    Obj(map["extensions" := Null, "bundler" := Null, "scripting" := Null, "test" := Obj(map["moduleAliases" := Null])])

  predicate TestIsTable(v: Value) {
    v.Obj? && "test" in v.fields ==> v.fields["test"].Obj?
  }

  /** Sets none of the settled keys and cannot wipe one by making `test` something else. */
  predicate Silent(v: Value) {
    v.Obj? && SameSettings(v, BARE) && TestIsTable(v)
  }

  lemma MemberMerged(a: Value, b: Value, o: Value, key: string)
    requires key !in APPEND_KEYS && Member(a, key) == Member(b, key)
    ensures Member(Merged(a, o), key) == Member(Merged(b, o), key)
  {
  }

  lemma NestedMerged(a: Value, b: Value, o: Value, outer: string, inner: string)
    requires outer !in APPEND_KEYS && inner !in APPEND_KEYS && Nested(a, outer, inner) == Nested(b, outer, inner)
    ensures Nested(Merged(a, o), outer, inner) == Nested(Merged(b, o), outer, inner)
  {
    var x, y, z := Member(a, outer), Member(b, outer), Member(o, outer);
    if z.Some? && z.value.Obj? {
      assert a.Obj? && x.Some? && o.Obj? ==> Member(Merged(a, o), outer) == Some(Merged(x.value, z.value));
      assert b.Obj? && y.Some? && o.Obj? ==> Member(Merged(b, o), outer) == Some(Merged(y.value, z.value));
    }
  }

  /** The same layer on top of two agreeing documents leaves them agreeing, whatever it holds. */
  lemma OverlayKeepsSettings(a: Value, b: Value, o: Value)
    requires SameSettings(a, b)
    ensures SameSettings(Merged(a, o), Merged(b, o))
  {
    MemberMerged(a, b, o, "extensions");
    MemberMerged(a, b, o, "bundler");
    MemberMerged(a, b, o, "scripting");
    NestedMerged(a, b, o, "test", "moduleAliases");
  }

  /** A silent layer changes no setting of whatever it is merged onto. */
  lemma SilentKeepsSettings(a: Value, o: Value)
    requires Silent(o)
    ensures SameSettings(a, Merged(a, o))
  {
    assert Member(Merged(a, o), "extensions") == Member(a, "extensions");
    assert Member(Merged(a, o), "bundler") == Member(a, "bundler");
    assert Member(Merged(a, o), "scripting") == Member(a, "scripting");
    var x, z := Member(a, "test"), Member(o, "test");
    if z.Some? && x.Some? {
      assert Member(Merged(a, o), "test") == Some(Merged(x.value, z.value));
    }
  }

  lemma InheritKeepsSettings(doc: Value, global: map<string, Value>, section: string, keys: seq<string>)
    requires section == "mcp" || section == "test"
    ensures SameSettings(doc, InheritAll(doc, global, section, keys))
    decreases keys
  {
    if keys != [] {
      var next := Inherit(doc, global, section, keys[0]);
      assert SameSettings(doc, next);
      InheritKeepsSettings(next, global, section, keys[1..]);
    }
  }

  lemma BrowserDefaultsKeepSettings(doc: Value)
    ensures SameSettings(doc, WithBrowserDefaults(doc))
  {
    if doc.Obj? && "browser" in doc.fields && doc.fields["browser"].Obj? {
      var global := doc.fields["browser"].fields;
      InheritKeepsSettings(doc, global, "mcp", INHERITED);
      InheritKeepsSettings(InheritAll(doc, global, "mcp", INHERITED), global, "test", INHERITED);
    }
  }

  // ---------------------------------------------------------------- what normalizing and anchoring keep absent

  /** Two documents that set a settled key, and turn `test` into something else, both or neither. */
  predicate AsSilent(a: Value, b: Value) {
    a.Obj? == b.Obj? && (SameSettings(a, BARE) <==> SameSettings(b, BARE)) && (TestIsTable(a) <==> TestIsTable(b))
  }

  lemma NormalizedTestKeepsAbsent(test: Value, expand: Expand)
    ensures test.Obj? == NormalizedTest(test, expand).Obj?
    ensures Member(test, "moduleAliases") == None <==> Member(NormalizedTest(test, expand), "moduleAliases") == None
  {
  }

  lemma NormalizedAsSilent(v: Value, expand: Expand)
    ensures AsSilent(NormalizedDoc(v, expand), v)
  {
    if v.Obj? && "test" in v.fields {
      NormalizedTestKeepsAbsent(v.fields["test"], expand);
    }
  }

  lemma AnchoredAsSilent(v: Value, at: Place)
    ensures AsSilent(AnchoredDoc(v, at), v)
  {
    if v.Obj? {
      assert RuleFor("test") == Descend;
      var w := AnchoredDoc(v, at);
      assert w.fields.Keys == v.fields.Keys;
      if "test" in v.fields {
        assert w.fields["test"] == AnchoredMember(RuleFor("test"), v.fields["test"], at);
        assert w.fields["test"] == AnchoredDoc(v.fields["test"], at);
        if v.fields["test"].Obj? {
          assert w.fields["test"].fields.Keys == v.fields["test"].fields.Keys;
        }
      }
    }
  }

  /** A document whose members anchoring keeps is kept. */
  lemma KeptAnchored(v: Value, at: Place)
    requires v.Obj? && forall k :: k in v.fields ==> AnchoredMember(RuleFor(k), v.fields[k], at) == v.fields[k]
    ensures AnchoredDoc(v, at) == v
  {
    assert AnchoredDoc(v, at).fields == v.fields;
  }

  lemma BarePrepared(expand: Expand, at: Place)
    ensures Prepared(BARE, expand, at) == BARE
  {
    assert WithoutExtends(BARE).fields == map[];
    KeptAnchored(BARE, at);
  }

  /** What is merged of a file is as silent as the file is, as parsed. */
  lemma PreparedAsSilent(v: Value, expand: Expand, at: Place)
    ensures AsSilent(Prepared(v, expand, at), v)
  {
    var u := WithoutExtends(v);
    assert AsSilent(u, v);
    NormalizedAsSilent(u, expand);
    AnchoredAsSilent(NormalizedDoc(u, expand), at);
  }

  lemma RefrainsIsSilent(v: Value)
    requires v.Obj?
    ensures Refrains(v) <==> SameSettings(v, BARE)
  {
    AtIsMember(v);
    assert SETTLED[0] == ["extensions"] && SETTLED[1] == ["bundler"] && SETTLED[2] == ["scripting"];
    assert SETTLED[3] == ["test", "moduleAliases"];
  }

  // ---------------------------------------------------------------- the two folds

  lemma FoldedConcat(a: seq<Layer>, b: seq<Layer>, top: Layer)
    ensures Folded(a + (b + [top])) == Merged(Folded(a + b), top.doc)
  {
    var all := a + (b + [top]);
    assert all[..|all| - 1] == a + b && all[|all| - 1] == top;
  }

  /** Layers that set nothing leave nothing set. */
  lemma {:induction false} NothingFolded(layers: seq<Layer>)
    requires forall i :: 0 <= i < |layers| ==> SameSettings(layers[i].doc, BARE)
    ensures SameSettings(BARE, Folded(layers))
  {
    if layers != [] {
      NothingFolded(layers[..|layers| - 1]);
      NothingMerged(Folded(layers[..|layers| - 1]), layers[|layers| - 1].doc);
    }
  }

  lemma NothingMerged(a: Value, o: Value)
    requires SameSettings(BARE, a) && SameSettings(o, BARE)
    ensures SameSettings(BARE, Merged(a, o))
  {
    var x, z := Member(a, "test"), Member(o, "test");
    if a.Obj? && o.Obj? && z.Some? && x.Some? {
      assert Member(Merged(a, o), "test") == Some(Merged(x.value, z.value));
    }
  }

  /** Leaving out silent layers, and changing what lies beneath, moves no settled key. */
  lemma {:induction false} DroppingSilent(d: Disk, paths: set<string>, below1: seq<Layer>, below2: seq<Layer>,
                                          files: seq<ConfigLayer>)
    requires SameSettings(Folded(below1), Folded(below2))
    requires forall i :: 0 <= i < |files| && files[i].path in paths ==> Silent(LayerOf(d, files[i]).doc)
    ensures SameSettings(Folded(below1 + LayersOf(d, Without(paths, files))), Folded(below2 + LayersOf(d, files)))
    decreases |files|
  {
    if files == [] {
      assert below1 + LayersOf(d, []) == below1 && below2 + LayersOf(d, files) == below2;
    } else {
      var init, last := files[..|files| - 1], files[|files| - 1];
      DroppingSilent(d, paths, below1, below2, init);
      LayersOfAppend(d, init, last);
      assert files == init + [last];
      FoldedConcat(below2, LayersOf(d, init), LayerOf(d, last));
      if last.path in paths {
        SilentKeepsSettings(Folded(below2 + LayersOf(d, init)), LayerOf(d, last).doc);
        assert Without(paths, files) == Without(paths, init);
      } else {
        LayersOfAppend(d, Without(paths, init), last);
        FoldedConcat(below1, LayersOf(d, Without(paths, init)), LayerOf(d, last));
        OverlayKeepsSettings(Folded(below1 + LayersOf(d, Without(paths, init))),
                             Folded(below2 + LayersOf(d, init)),
                             LayerOf(d, last).doc);
      }
    }
  }

  lemma {:induction false} SameOverrides(a: seq<Layer>, b: seq<Layer>, overrides: seq<Layer>)
    requires SameSettings(Folded(a), Folded(b))
    ensures SameSettings(Folded(a + overrides), Folded(b + overrides))
    decreases |overrides|
  {
    if overrides == [] {
      assert a + overrides == a && b + overrides == b;
    } else {
      var init, last := overrides[..|overrides| - 1], overrides[|overrides| - 1];
      SameOverrides(a, b, init);
      assert overrides == init + [last];
      FoldedConcat(a, init, last);
      FoldedConcat(b, init, last);
      OverlayKeepsSettings(Folded(a + init), Folded(b + init), last.doc);
    }
  }

  lemma SameSettingsAt(a: Value, b: Value)
    requires SameSettings(a, b)
    ensures forall i :: 0 <= i < |SETTLED| ==> At(a, SETTLED[i]) == At(b, SETTLED[i])
  {
    AtIsMember(a);
    AtIsMember(b);
  }

  // ---------------------------------------------------------------- what layers can do to the settings

  /** These layers merged on top of a document. */
  function MergedOnto(doc: Value, layers: seq<Layer>): Value {
    if layers == [] then doc else Merged(MergedOnto(doc, layers[..|layers| - 1]), layers[|layers| - 1].doc)
  }

  /** The document whose settings a layer that is not silent changes, whatever lies between: one without any
      when the layer sets one, else one with all of them. */
  function Exposed(o: Value): Value {
    if o.Obj? && !SameSettings(o, BARE) then BARE else FULL
  }

  lemma LoudLayerShows(doc: Value, o: Value)
    requires !Silent(o)
    ensures !SameSettings(Exposed(o), Merged(doc, o))
  {
    if o.Obj? {
      var m := Merged(doc, o);
      assert "extensions" in o.fields ==> Member(m, "extensions").Some?;
      assert "bundler" in o.fields ==> Member(m, "bundler").Some?;
      assert "scripting" in o.fields ==> Member(m, "scripting").Some?;
      if "test" in o.fields {
        LoudTestShows(doc, o);
      }
    }
  }

  lemma LoudTestShows(doc: Value, o: Value)
    requires o.Obj? && "test" in o.fields
    ensures !o.fields["test"].Obj? ==> Nested(Merged(doc, o), "test", "moduleAliases") == None
    ensures Nested(o, "test", "moduleAliases").Some? ==> Nested(Merged(doc, o), "test", "moduleAliases").Some?
  {
  }

  lemma {:induction false} SilentOnto(doc: Value, layers: seq<Layer>)
    requires forall i :: 0 <= i < |layers| ==> Silent(layers[i].doc)
    ensures SameSettings(doc, MergedOnto(doc, layers))
  {
    if layers != [] {
      SilentOnto(doc, layers[..|layers| - 1]);
      SilentKeepsSettings(MergedOnto(doc, layers[..|layers| - 1]), layers[|layers| - 1].doc);
    }
  }

  /** The last layer that is not silent shows. */
  lemma {:induction false} LoudLayersShow(layers: seq<Layer>) returns (doc: Value)
    requires exists i :: 0 <= i < |layers| && !Silent(layers[i].doc)
    ensures (doc == BARE || doc == FULL) && !SameSettings(doc, MergedOnto(doc, layers))
    decreases |layers|
  {
    var n := |layers| - 1;
    var init, top := layers[..n], layers[n].doc;
    if Silent(top) {
      assert forall i :: 0 <= i < n ==> init[i] == layers[i];
      doc := LoudLayersShow(init);
      SilentKeepsSettings(MergedOnto(doc, init), top);
    } else {
      doc := Exposed(top);
      LoudLayerShows(MergedOnto(doc, init), top);
    }
  }

  /** Exactly when layers are harmless: every document keeps its settings under them if and only if each of
      them is silent. */
  lemma LayersAreHarmless(layers: seq<Layer>)
    ensures (forall i :: 0 <= i < |layers| ==> Silent(layers[i].doc)) <==>
            (forall doc :: SameSettings(doc, MergedOnto(doc, layers)))
  {
    if forall i :: 0 <= i < |layers| ==> Silent(layers[i].doc) {
      forall doc ensures SameSettings(doc, MergedOnto(doc, layers)) {
        SilentOnto(doc, layers);
      }
    } else {
      var doc := LoudLayersShow(layers);
    }
  }
}
