/** Where the two phases part: a document that a module repairs or that extends a module, and what the check on a
    module's own keys does not see (crates/ferridriver-config/src/layer.rs:279-307, 553-581, 830-915). */
module StartupLimits {
  import opened Json
  import opened LayerMerge
  import opened LayerLedger
  import opened ExtendsWalk
  import opened Paths
  import opened Anchor
  import opened BrowserDefaults
  import opened Startup
  import opened StartupPhases

  const BROKEN := Obj(map["test" := Obj(map["workers" := Str("many")])])
  const REPAIR := Obj(map["test" := Obj(map["workers" := Num(PosInt(4))])])

  predicate WorkersAreCounted(v: Value) {
    match Nested(v, "test", "workers")
    case Some(Str(_)) => false
    case _ => true
  }

  /** A document that asks for `many` workers, and a module beside it that asks for 4. */
  function RepairedStack(doc: ConfigLayer, mod: ConfigLayer): Stack {
    Stack([doc, mod], map[doc.path := BROKEN, mod.path := REPAIR], {mod.path}, map[],
          _ => "/", None, [], bag => bag, _ => true, WorkersAreCounted)
  }

  predicate SetsWorkers(v: Value) {
    v.Obj? && v.fields.Keys == {"test"} && v.fields["test"].Obj? && v.fields["test"].fields.Keys == {"workers"} &&
    (v.fields["test"].fields["workers"].Str? || v.fields["test"].fields["workers"].Num?)
  }

  lemma RepairSetsWorkers()
    ensures SetsWorkers(BROKEN) && SetsWorkers(REPAIR)
  {}

  lemma WorkersFile(s: Stack, path: string)
    requires path in s.files && SetsWorkers(s.files[path])
    ensures Read(s, path, true) == Some(ParsedFile([], s.files[path]))
    ensures path !in s.modules ==> Read(s, path, false) == Some(ParsedFile([], s.files[path]))
  {
    WorkersRead(s.files[path], s.expand, Place(s.dir(path), s.home));
  }

  /** What is read of a document that only sets `test.workers`. */
  lemma WorkersRead(v: Value, expand: Expand, at: Place)
    requires SetsWorkers(v)
    ensures Refrains(v) && Extended(v, at) == []
    ensures Prepared(v, expand, at) == v
  {
    var test := v.fields["test"];
    RefrainsIsSilent(v);
    assert WithoutExtends(v) == v;
    assert NormalizedTest(test, expand) == test;
    assert v.fields["test" := test] == v.fields;
    assert NormalizedDoc(v, expand) == v;
    assert RuleFor("test") == Descend && RuleFor("workers") == Descend;
    assert AnchoredMember(Descend, test.fields["workers"], at) == test.fields["workers"];
    assert AnchoredDoc(test, at).fields == test.fields;
    assert AnchoredDoc(v, at).fields == v.fields;
  }

  lemma OneFile(d: Disk, layer: ConfigLayer, w: Walk)
    requires layer.path in d.files && d.files[layer.path].parents == [] && d.Canonical(layer.path) !in w.seen
    ensures Applied(d, layer, w) == Ok(Walk(w.seen + {d.Canonical(layer.path)}, w.layers + [layer]))
  {
    assert d.Parents(layer.path) == [];
  }

  /** The walk over two files that extend nothing. */
  lemma TwoFiles(d: Disk, a: ConfigLayer, b: ConfigLayer)
    requires a.path in d.files && b.path in d.files && d.Canonical(a.path) != d.Canonical(b.path)
    requires d.files[a.path].parents == d.files[b.path].parents == []
    ensures AppliedAll(d, [a, b], Walk({}, [])).Ok? && AppliedAll(d, [a, b], Walk({}, [])).value.layers == [a, b]
  {
    OneFile(d, a, Walk({}, []));
    var one := Applied(d, a, Walk({}, [])).value;
    OneFile(d, b, one);
    var two := Applied(d, b, one).value;
    assert [a, b][1..] == [b] && [b][1..] == [];
    assert AppliedAll(d, [], two) == Ok(two);
    assert AppliedAll(d, [b], one) == Ok(two);
    assert [] + [a] == [a] && [a] + [b] == [a, b];
  }

  /** What a stack of a document and a module merges, when it holds nothing else. */
  lemma DocumentAndModule(s: Stack, a: ConfigLayer, b: ConfigLayer, x: ParsedFile, y: ParsedFile)
    requires s.discovered == [a, b] && a.path !in s.modules && b.path in s.modules && s.overrides == []
    requires Reads(DiskOf(s, false), a, x) && Reads(DiskOf(s, true), a, x) && Reads(DiskOf(s, true), b, y)
    requires s.canon == map[] && a.path != b.path && x.parents == y.parents == []
    ensures MergedDocument(s, [], true) == Some(WithBrowserDefaults(Merged(BARE, x.doc)))
    ensures MergedDocument(s, [], false) == Some(WithBrowserDefaults(Merged(Merged(BARE, x.doc), y.doc)))
  {
    var f, d := DiskOf(s, true), DiskOf(s, false);
    OneFile(d, a, Walk({}, []));
    TwoFiles(f, a, b);
    OneDocument(s.modules, a, b);
    assert [a][1..] == [] && [] + [a] == [a];
    assert AppliedAll(d, [a], Walk({}, [])) == AppliedAll(d, [], Applied(d, a, Walk({}, [])).value);
    var one, two := LayersOf(d, [a]), LayersOf(f, [a, b]);
    assert one == [LayerOf(d, a)] && two == [LayerOf(f, a), LayerOf(f, b)];
    FoldedTwo(LayerOf(d, a), LayerOf(f, b));
    FoldedTwo(LayerOf(f, a), LayerOf(f, b));
    assert DefaultLayers(s, []) == [];
    assert [] + one + [] == one && [] + two + [] == two;
  }

  predicate Reads(d: Disk, layer: ConfigLayer, file: ParsedFile) {
    layer.path in d.files && d.files[layer.path] == file
  }

  lemma OneDocument(modules: set<string>, a: ConfigLayer, b: ConfigLayer)
    requires a.path !in modules && b.path in modules
    ensures Without(modules, [a, b]) == [a]
  {
    assert [a, b][..1] == [a] && [a][..0] == [];
    assert Without(modules, [a]) == [a];
  }

  lemma FoldedTwo(x: Layer, y: Layer)
    ensures Folded([x]) == Merged(Obj(map[]), x.doc) && Folded([x, y]) == Merged(Merged(Obj(map[]), x.doc), y.doc)
  {
    assert [x][..0] == [] && [x, y][..1] == [x];
  }

  lemma RepairMerges()
    ensures Merged(Obj(map[]), BROKEN) == BROKEN && Merged(BROKEN, REPAIR) == REPAIR
    ensures WithBrowserDefaults(BROKEN) == BROKEN && WithBrowserDefaults(REPAIR) == REPAIR
    ensures WorkersAreCounted(REPAIR) && !WorkersAreCounted(BROKEN)
  {
    assert Merged(Obj(map[]), BROKEN).fields == BROKEN.fields;
    assert Merged(BROKEN.fields["test"], REPAIR.fields["test"]).fields == REPAIR.fields["test"].fields;
    assert Merged(BROKEN, REPAIR).fields == REPAIR.fields;
  }

  lemma WorkersFiles(s: Stack, doc: ConfigLayer, mod: ConfigLayer)
    requires s.discovered == [doc, mod] && doc.path != mod.path
    requires s.files.Keys == {doc.path, mod.path} && s.canon == map[] && s.modules == {mod.path}
    requires SetsWorkers(s.files[doc.path]) && SetsWorkers(s.files[mod.path])
    ensures Reads(DiskOf(s, false), doc, ParsedFile([], s.files[doc.path]))
    ensures Reads(DiskOf(s, true), doc, ParsedFile([], s.files[doc.path]))
    ensures Reads(DiskOf(s, true), mod, ParsedFile([], s.files[mod.path]))
    ensures ModulesBringSilence(s) && DocumentsStandAlone(s)
  {
    WorkersFile(s, doc.path);
    WorkersFile(s, mod.path);
    RefrainsIsSilent(s.files[mod.path]);
    WorkersRead(s.files[mod.path], s.expand, Place(s.dir(mod.path), s.home));
    OneDocument(s.modules, doc, mod);
    AloneWithoutParents(s, DiskOf(s, true), doc.path, mod.path);
  }

  /** On a disk without links where nothing extends anything, a module brings itself and a document needs itself. */
  lemma AloneWithoutParents(s: Stack, f: Disk, doc: string, mod: string)
    requires f == DiskOf(s, true) && f.canon == map[] && s.modules == {mod} && mod in Silents(s) && doc != mod
    requires AllOwn({doc}, Roots(s, true)) && forall p :: p in f.files ==> f.files[p].parents == []
    ensures ModulesBringSilence(s) && DocumentsStandAlone(s)
  {
    assert forall p :: f.Canonical(p) == p;
    assert ClosedQuiet(f, Silents(s), {mod});
    ClosedBringsQuiet(f, s.modules, Silents(s), {mod}, s.discovered, Walk({}, []));
    assert DocumentsReadable(f, s.modules, {doc});
  }

  /** The documents alone can be refused although the whole stack resolves: a module may repair what a
      document breaks, but it is never compiled, because the first phase fails. */
  lemma DocumentsAloneMayBeRefused(doc: ConfigLayer, mod: ConfigLayer)
    requires doc.path != mod.path
    ensures ModulesBringSilence(RepairedStack(doc, mod)) && DocumentsStandAlone(RepairedStack(doc, mod))
    ensures Resolved(RepairedStack(doc, mod), [], false).Some? && Resolved(RepairedStack(doc, mod), [], true).None?
  {
    RepairSetsWorkers();
    RepairMerges();
    RefusedOrAccepted(RepairedStack(doc, mod), doc, mod, BROKEN, REPAIR);
  }

  lemma RefusedOrAccepted(s: Stack, doc: ConfigLayer, mod: ConfigLayer, x: Value, y: Value)
    requires s.discovered == [doc, mod] && doc.path != mod.path && s.overrides == []
    requires s.files.Keys == {doc.path, mod.path} && s.canon == map[] && s.modules == {mod.path}
    requires s.files[doc.path] == x && SetsWorkers(x) && s.files[mod.path] == y && SetsWorkers(y) && MergeToLast(x, y)
    ensures ModulesBringSilence(s) && DocumentsStandAlone(s)
    ensures Resolved(s, [], true).Some? <==> s.accepts(x)
    ensures Resolved(s, [], false).Some? <==> s.accepts(y)
  {
    WorkersFiles(s, doc, mod);
    BothMerged(s, doc, mod, x, y);
    ResolvedAs(s, true, x);
    ResolvedAs(s, false, y);
  }

  /** The second document replaces all of the first. */
  predicate MergeToLast(x: Value, y: Value) {
    Merged(Obj(map[]), x) == x && Merged(x, y) == y && WithBrowserDefaults(x) == x && WithBrowserDefaults(y) == y
  }

  lemma BothMerged(s: Stack, doc: ConfigLayer, mod: ConfigLayer, x: Value, y: Value)
    requires s.discovered == [doc, mod] && doc.path != mod.path && s.overrides == [] && s.modules == {mod.path}
    requires s.canon == map[] && Reads(DiskOf(s, false), doc, ParsedFile([], x))
    requires Reads(DiskOf(s, true), doc, ParsedFile([], x)) && Reads(DiskOf(s, true), mod, ParsedFile([], y))
    requires MergeToLast(x, y)
    ensures MergedDocument(s, [], true) == Some(x) && MergedDocument(s, [], false) == Some(y)
  {
    DocumentAndModule(s, doc, mod, ParsedFile([], x), ParsedFile([], y));
  }

  // ---------------------------------------------------------------- what the check on a module does not see

  /** Exactly how far the check on a module's keys reaches for the module's own document: of those that pass it,
      those leave every document's settings alone that do not turn `test` into something other than a table. */
  lemma CheckedModuleIsHarmless(mod: Value)
    requires Refrains(mod)
    ensures TestIsTable(mod) <==> forall doc :: SameSettings(doc, Merged(doc, mod))
  {
    RefrainsIsSilent(mod);
    if TestIsTable(mod) {
      forall doc ensures SameSettings(doc, Merged(doc, mod)) {
        SilentKeepsSettings(doc, mod);
      }
    } else {
      LoudLayerShows(Exposed(mod), mod);
    }
  }

  /** A module that sets `test` to a scalar passes the check and wipes the alias table the documents settled. */
  lemma ScalarTestWipesAliases()
    ensures var doc := Obj(map["test" := Obj(map["moduleAliases" := Obj(map[])])]);
            var mod := Obj(map["test" := Null]);
            Refrains(mod) && At(doc, SETTLED[3]).Some? && At(Merged(doc, mod), SETTLED[3]) == None
  {
    var doc := Obj(map["test" := Obj(map["moduleAliases" := Obj(map[])])]);
    var mod := Obj(map["test" := Null]);
    AtIsMember(doc);
    AtIsMember(mod);
    RefrainsIsSilent(mod);
    AtIsMember(Merged(doc, mod));
    assert Member(Merged(doc, mod), "test") == Some(Null);
    assert SETTLED[3] == ["test", "moduleAliases"];
  }

  /** A file that names one other in its `extends` and holds nothing else. */
  function Extending(entry: string): Value {
    Obj(map["extends" := Str(entry)])
  }

  /** One file that extends another. */
  function PairStack(file: ConfigLayer, base: string, entry: string, held: Value, modules: set<string>,
                     dir: string -> string, home: Option<string>): Stack {
    Stack([file], map[file.path := Extending(entry), base := held], modules, map[], dir, home, [], bag => bag,
          _ => true, _ => true)
  }

  lemma ExtendingRead(entry: string, expand: Expand, at: Place)
    ensures Refrains(Extending(entry)) && TestIsTable(Extending(entry))
    ensures Extended(Extending(entry), at) == [ResolvedAgainst(entry, at)]
    ensures Prepared(Extending(entry), expand, at) == BARE
  {
    var v := Extending(entry);
    RefrainsIsSilent(v);
    assert WithoutExtends(v) == WithoutExtends(BARE) by {
      assert WithoutExtends(v).fields == map[] && WithoutExtends(BARE).fields == map[];
    }
    BarePrepared(expand, at);
  }

  /** The walk from a file that extends one other. */
  lemma ExtendingWalk(d: Disk, file: ConfigLayer, base: string, x: Value, y: Value)
    requires d.canon == map[] && file.path != base
    requires Reads(d, file, ParsedFile([base], x)) && Reads(d, ConfigLayer(Extends, base), ParsedFile([], y))
    ensures var r := AppliedAll(d, [file], Walk({}, []));
            r.Ok? && LayersOf(d, r.value.layers) == [Layer(File(base), y), Layer(File(file.path), x)]
  {
    var below := ConfigLayer(Extends, base);
    var entered := Walk({file.path}, []);
    OneFile(d, below, entered);
    var after := Applied(d, below, entered).value;
    assert d.Parents(file.path) == [below];
    assert [below][1..] == [] && [file][1..] == [];
    assert AppliedAll(d, [below], entered) == AppliedAll(d, [], after);
    assert {} + {file.path} == {file.path};
    assert Applied(d, file, Walk({}, [])) == Ok(after.(layers := after.layers + [file]));
    assert after.layers + [file] == [below, file];
  }

  /** A module alone that extends one file: the documents settle nothing, and the file is merged unchecked. */
  lemma ModuleOnBase(s: Stack, mod: ConfigLayer, base: string, y: Value)
    requires s.discovered == [mod] && mod.path in s.modules && s.overrides == [] && s.canon == map[] && mod.path != base
    requires Reads(DiskOf(s, true), mod, ParsedFile([base], BARE))
    requires Reads(DiskOf(s, true), ConfigLayer(Extends, base), ParsedFile([], y)) && y.Obj?
    ensures MergedDocument(s, [], true) == Some(WithBrowserDefaults(BARE))
    ensures MergedDocument(s, [], false) == Some(WithBrowserDefaults(y))
  {
    var f := DiskOf(s, true);
    ExtendingWalk(f, mod, base, BARE, y);
    assert Without(s.modules, [mod]) == [] by {
      assert [mod][..0] == [];
    }
    FoldedTwo(Layer(File(base), y), Layer(File(mod.path), BARE));
    assert Merged(BARE, y).fields == y.fields && Merged(y, BARE).fields == y.fields;
    MergedAs(s, true, []);
    MergedAs(s, false, [Layer(File(base), y), Layer(File(mod.path), BARE)]);
  }

  /** What is read of the pair. */
  lemma PairRead(s: Stack, file: ConfigLayer, base: string, entry: string, held: Value, loader: bool)
    requires s.files == map[file.path := Extending(entry), base := held] && file.path != base
    requires base == ResolvedAgainst(entry, Place(s.dir(file.path), s.home)) && held.Obj? && "extends" !in held.fields
    requires loader || file.path !in s.modules
    ensures Reads(DiskOf(s, loader), file, ParsedFile([base], BARE))
    ensures loader && (base in s.modules ==> Refrains(held)) ==>
              Reads(DiskOf(s, loader), ConfigLayer(Extends, base),
                    ParsedFile([], Prepared(held, s.expand, Place(s.dir(base), s.home))))
  {
    ExtendingRead(entry, s.expand, Place(s.dir(file.path), s.home));
    assert Read(s, file.path, loader) == Some(ParsedFile([base], BARE));
  }

  /** The check never sees what a module extends: a module that sets nothing itself passes it, both phases resolve,
      and they agree if and only if the file it extends sets none of the keys either. */
  lemma ExtendedFileIsUnchecked(mod: ConfigLayer, entry: string, held: Value, dir: string -> string,
                                home: Option<string>)
    requires held.Obj? && "extends" !in held.fields
    requires mod.path != ResolvedAgainst(entry, Place(dir(mod.path), home))
    ensures var base := ResolvedAgainst(entry, Place(dir(mod.path), home));
            var s := PairStack(mod, base, entry, held, {mod.path}, dir, home);
            Refrains(s.files[mod.path]) && TestIsTable(s.files[mod.path]) &&
            Resolved(s, [], true).Some? && Resolved(s, [], false).Some? && (SettleAlike(s) <==> Refrains(held))
  {
    var base := ResolvedAgainst(entry, Place(dir(mod.path), home));
    var s := PairStack(mod, base, entry, held, {mod.path}, dir, home);
    ExtendingRead(entry, s.expand, Place(dir(mod.path), home));
    UncheckedFile(s, mod, base, entry, held);
  }

  lemma UncheckedFile(s: Stack, mod: ConfigLayer, base: string, entry: string, held: Value)
    requires s.discovered == [mod] && s.modules == {mod.path} && s.overrides == [] && s.canon == map[]
    requires s.files == map[mod.path := Extending(entry), base := held] && mod.path != base
    requires base == ResolvedAgainst(entry, Place(s.dir(mod.path), s.home)) && held.Obj? && "extends" !in held.fields
    requires forall merged :: s.accepts(merged)
    ensures Resolved(s, [], true).Some? && Resolved(s, [], false).Some? && (SettleAlike(s) <==> Refrains(held))
  {
    var y := Prepared(held, s.expand, Place(s.dir(base), s.home));
    PairRead(s, mod, base, entry, held, true);
    PreparedAsSilent(held, s.expand, Place(s.dir(base), s.home));
    RefrainsIsSilent(held);
    ModuleOnBase(s, mod, base, y);
    SettlesTo(s, BARE, y);
  }

  /** A document that extends a module cannot be read by itself, as there is no loader yet: the documents alone are
      refused although the whole stack resolves. */
  lemma ExtendedModuleNeedsLoader(doc: ConfigLayer, entry: string, dir: string -> string, home: Option<string>)
    requires doc.path != ResolvedAgainst(entry, Place(dir(doc.path), home))
    ensures var base := ResolvedAgainst(entry, Place(dir(doc.path), home));
            var s := PairStack(doc, base, entry, BARE, {base}, dir, home);
            ModulesBringSilence(s) && Resolved(s, [], false).Some? && Resolved(s, [], true).None?
  {
    var base := ResolvedAgainst(entry, Place(dir(doc.path), home));
    DocumentOnModule(PairStack(doc, base, entry, BARE, {base}, dir, home), doc, base, entry);
  }

  lemma DocumentOnModule(s: Stack, doc: ConfigLayer, base: string, entry: string)
    requires s.discovered == [doc] && s.modules == {base} && s.overrides == [] && s.canon == map[]
    requires s.files == map[doc.path := Extending(entry), base := BARE] && doc.path != base
    requires base == ResolvedAgainst(entry, Place(s.dir(doc.path), s.home))
    requires forall merged :: s.accepts(merged)
    ensures ModulesBringSilence(s) && Resolved(s, [], false).Some? && Resolved(s, [], true).None?
  {
    var f, d := DiskOf(s, true), DiskOf(s, false);
    RefrainsIsSilent(BARE);
    BarePrepared(s.expand, Place(s.dir(base), s.home));
    PairRead(s, doc, base, entry, BARE, true);
    PairRead(s, doc, base, entry, BARE, false);
    ExtendingWalk(f, doc, base, BARE, BARE);
    LoaderAddsModules(s);
    ModuleUnread(d, doc, base);
    assert Without(s.modules, [doc]) == [doc] by {
      assert [doc][..0] == [];
    }
  }

  lemma ModuleUnread(d: Disk, doc: ConfigLayer, base: string)
    requires d.canon == map[] && doc.path != base && base !in d.files
    requires Reads(d, doc, ParsedFile([base], BARE))
    ensures AppliedAll(d, [doc], Walk({}, [])) == Err(base)
  {
    var below := ConfigLayer(Extends, base);
    var entered := Walk({} + {doc.path}, []);
    assert d.Parents(doc.path) == [below];
    assert Applied(d, below, entered) == Err(base);
    assert AppliedAll(d, [below], entered) == Err(base);
    OneRoot(d, doc, Walk({}, []));
  }
}
