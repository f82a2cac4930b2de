/** One resolve, step by step, and which part of the stack wins
    (crates/ferridriver-config/src/layer.rs:528-603). */
module StartupResolve {
  import opened Json
  import opened LayerMerge
  import opened LayerLedger
  import opened ExtendsWalk
  import opened Paths
  import opened Anchor
  import opened BrowserDefaults
  import opened BrowserReads
  import opened Startup
  import opened StartupPhases

  // ---------------------------------------------------------------- the code that updates in place

  /** Everything one resolve merges, lowest first. */
  function Parts(s: Stack, defaults: seq<Contribution>, documentsOnly: bool): seq<Layer>
    requires Phase(s, documentsOnly).Ok?
  {
    DefaultLayers(s, defaults) + LayersOf(DiskOf(s, !documentsOnly), Phase(s, documentsOnly).value.layers) + s.overrides
  }

  /** The ledger one resolve leaves: that of its parts, with the copied browser keys attributed. */
  ghost predicate Accounted(parts: seq<Layer>, winners: Winners, contributors: map<Path, seq<Origin>>) {
    exists l :: Logged(parts, l) && winners == WithBrowserWinners(Folded(parts), l.winners) &&
      contributors == l.contributors
  }

  method AllContribute(s: Stack, defaults: seq<Contribution>) returns (ok: bool)
    ensures ok <==> forall i :: 0 <= i < |defaults| ==> Contributes(s, defaults[i].payload)
  {
    for n := 0 to |defaults|
      invariant forall i :: 0 <= i < n ==> Contributes(s, defaults[i].payload)
    {
      if !Contributes(s, defaults[n].payload) {
        return false;
      }
    }
    ok := true;
  }

  /** `resolve`: contributions, files and overrides merged in turn into one document and one ledger. */
  method Resolve(s: Stack, defaults: seq<Contribution>, documentsOnly: bool)
    returns (result: Option<Value>, provenance: Provenance)
    ensures result == Resolved(s, defaults, documentsOnly) && fresh(provenance)
    ensures result.Some? ==>
              Phase(s, documentsOnly).Ok? &&
              Accounted(Parts(s, defaults, documentsOnly), provenance.winners, provenance.contributors)
  {
    var ok := AllContribute(s, defaults);
    if !ok {
      provenance := new Provenance();
      return None, provenance;
    }
    var fold, failed := MergeParts(s, defaults, documentsOnly);
    provenance := fold.provenance;
    if failed.Some? {
      return None, provenance;
    }
    var document := Finish(fold, Parts(s, defaults, documentsOnly));
    result := if s.accepts(document) then Some(document) else None;
  }

  /** The three parts, lowest first. */
  method MergeParts(s: Stack, defaults: seq<Contribution>, documentsOnly: bool)
    returns (fold: Fold, failed: Option<string>)
    ensures fresh(fold) && fresh(fold.provenance)
    ensures failed.Some? <==> Phase(s, documentsOnly).Err?
    ensures failed.None? ==> fold.Valid() && fold.applied == Parts(s, defaults, documentsOnly)
  {
    fold := new Fold(DefaultLayers(s, defaults));
    failed := ApplyRoots(fold, s, documentsOnly);
    if failed.None? {
      ApplyOverrides(fold, s.overrides);
    }
  }

  /** The browser keys are copied last. */
  method Finish(fold: Fold, ghost parts: seq<Layer>) returns (document: Value)
    requires fold.Valid() && fold.applied == parts
    modifies fold.provenance
    ensures document == WithBrowserDefaults(Folded(parts))
    ensures Accounted(parts, fold.provenance.winners, fold.provenance.contributors)
  {
    ghost var l := Ledger(fold.provenance.winners, fold.provenance.contributors);
    document := ApplyGlobalBrowserDefaults(fold.document, fold.provenance);
    assert Logged(parts, l);
  }

  /** The loop over the discovered layers. */
  method ApplyRoots(fold: Fold, s: Stack, documentsOnly: bool) returns (failed: Option<string>)
    requires fold.Valid() && fold.OnDefaults(DiskOf(s, !documentsOnly)) && fold.State() == Walk({}, [])
    modifies fold, fold.provenance
    ensures failed.Some? <==> Phase(s, documentsOnly).Err?
    ensures failed.None? ==>
              fold.Valid() && fold.beneath == old(fold.beneath) &&
              fold.applied == fold.beneath + LayersOf(DiskOf(s, !documentsOnly), Phase(s, documentsOnly).value.layers)
  {
    var d := DiskOf(s, !documentsOnly);
    ghost var phase := Phase(s, documentsOnly);
    assert s.discovered[0..] == s.discovered;
    for n := 0 to |s.discovered|
      invariant fold.Valid() && fold.OnDefaults(d) && fold.beneath == old(fold.beneath)
      invariant Remains(d, s.modules, s.discovered[n..], documentsOnly, fold.State(), phase)
    {
      assert s.discovered[n..] == [s.discovered[n]] + s.discovered[n + 1..];
      failed := ApplyRoot(fold, d, s.modules, s.discovered[n], s.discovered[n + 1..], documentsOnly, phase);
      if failed != None {
        return;
      }
    }
    failed := None;
  }

  /** The loop body: phase one skips a module. */
  method ApplyRoot(fold: Fold, d: Disk, modules: set<string>, layer: ConfigLayer, ghost rest: seq<ConfigLayer>,
                   documentsOnly: bool, ghost phase: Result<Walk, string>)
    returns (failed: Option<string>)
    requires fold.Valid() && fold.OnDefaults(d)
    requires Remains(d, modules, [layer] + rest, documentsOnly, fold.State(), phase)
    modifies fold, fold.provenance
    ensures failed.Some? ==> phase == Err(failed.value)
    ensures failed.None? ==> fold.Valid() && fold.OnDefaults(d) && fold.beneath == old(fold.beneath)
    ensures failed.None? ==> Remains(d, modules, rest, documentsOnly, fold.State(), phase)
  {
    RemainsNext(d, modules, layer, rest, documentsOnly, fold.State(), phase);
    if documentsOnly && layer.path in modules {
      return None;
    }
    failed := fold.ApplyLayer(d, layer);
  }

  /** Walking these roots from here ends as the whole walk does. */
  ghost predicate Remains(d: Disk, modules: set<string>, roots: seq<ConfigLayer>, documentsOnly: bool, w: Walk,
                          phase: Result<Walk, string>)
  {
    AppliedAll(d, Kept(modules, roots, documentsOnly), w) == phase
  }

  lemma RemainsNext(d: Disk, modules: set<string>, layer: ConfigLayer, rest: seq<ConfigLayer>, documentsOnly: bool,
                    w: Walk, phase: Result<Walk, string>)
    requires Remains(d, modules, [layer] + rest, documentsOnly, w, phase)
    ensures if documentsOnly && layer.path in modules then Remains(d, modules, rest, documentsOnly, w, phase)
            else
              var first := Applied(d, layer, w);
              if first.Err? then phase == first else Remains(d, modules, rest, documentsOnly, first.value, phase)
  {
    WithoutFirst(modules, layer, rest);
    WalkFirst(d, layer, Kept(modules, rest, documentsOnly), w);
    if documentsOnly && layer.path in modules {
      assert Without(modules, [layer] + rest) == Without(modules, rest);
    }
  }

  function Kept(modules: set<string>, layers: seq<ConfigLayer>, documentsOnly: bool): seq<ConfigLayer> {
    if documentsOnly then Without(modules, layers) else layers
  }

  method ApplyOverrides(fold: Fold, overrides: seq<Layer>)
    requires fold.Valid()
    modifies fold, fold.provenance
    ensures fold.Valid() && fold.applied == old(fold.applied) + overrides
  {
    for n := 0 to |overrides|
      invariant fold.Valid() && fold.applied == old(fold.applied) + overrides[..n]
    {
      fold.MergeOnTop(overrides[n]);
      assert overrides[..n + 1] == overrides[..n] + [overrides[n]];
    }
    assert overrides[..|overrides|] == overrides;
  }

  // ---------------------------------------------------------------- which part of the stack wins

  ghost predicate Holds(part: seq<Layer>, p: Path) {
    exists i :: 0 <= i < |part| && IsLeaf(part[i].doc, p)
  }

  /** The payloads in load order, each under the name of its package. */
  function Contributions(s: Stack, defaults: seq<Contribution>): seq<Layer> {
    seq(|defaults|, i requires 0 <= i < |defaults| =>
      Layer(Extension(defaults[i].package), NormalizedDoc(defaults[i].payload, s.expand)))
  }

  /** The files in the order of the walk: each as parsed, without `extends`, normalized, then anchored to its own
      directory. */
  function Files(s: Stack, documentsOnly: bool): seq<Layer>
    requires Phase(s, documentsOnly).Ok?
  {
    var layers := Phase(s, documentsOnly).value.layers;
    seq(|layers|, i requires 0 <= i < |layers| => FileLayer(s, layers[i].path))
  }

  function FileLayer(s: Stack, path: string): Layer {
    var raw := if path in s.files then s.files[path] else Null;
    Layer(File(path), AnchoredDoc(NormalizedDoc(WithoutExtends(raw), s.expand), Place(s.dir(path), s.home)))
  }

  lemma PartsAre(s: Stack, defaults: seq<Contribution>, documentsOnly: bool)
    requires Phase(s, documentsOnly).Ok?
    ensures Parts(s, defaults, documentsOnly) ==
            Contributions(s, defaults) + Files(s, documentsOnly) + s.overrides
  {
    var d := DiskOf(s, !documentsOnly);
    var layers := Phase(s, documentsOnly).value.layers;
    MergedFilesAreRead(d, Roots(s, documentsOnly), Walk({}, []));
    forall i | 0 <= i < |layers| ensures LayerOf(d, layers[i]) == FileLayer(s, layers[i].path) {
      assert Read(s, layers[i].path, !documentsOnly).Some?;
    }
    assert LayersOf(d, layers) == Files(s, documentsOnly);
    assert DefaultLayers(s, defaults) == Contributions(s, defaults);
  }

  lemma {:induction false} LeafIsNoTable(v: Value, p: Path)
    requires p != [] && v.Obj? && WellKindedMembers(v) && IsLeaf(v, p)
    ensures At(v, p).Some? && !At(v, p).value.Obj?
    decreases p
  {
    var k := p[0];
    assert WellKinded(k, v.fields[k]);
    if p[1..] != [] {
      LeafIsNoTable(v.fields[k], p[1..]);
    }
  }

  /** The last holder of a leaf decides it, through the copying of the browser keys as well. */
  lemma HolderIsRead(stack: seq<Layer>, p: Path, i: int)
    requires KindAgreeing(stack) && p != [] && !Written(p)
    requires LastHolder(stack, p, i) && !IsAppendLeaf(stack[i].doc, "", p)
    ensures At(WithBrowserDefaults(Folded(stack)), p) == At(stack[i].doc, p)
  {
    LastHolderDecides(stack, p, i);
    LeafIsNoTable(stack[i].doc, p);
    FoldAgrees(stack);
    DefaultsKeepTheRest(Folded(stack), p);
  }

  lemma HolderAmong(below: seq<Layer>, part: seq<Layer>, above: seq<Layer>, p: Path, i: int)
    requires LastHolder(part, p, i) && !Holds(above, p)
    ensures LastHolder(below + part + above, p, |below| + i)
    ensures (below + part + above)[|below| + i] == part[i]
  {
    var all := below + part + above;
    forall j | |below| + i < j < |all| ensures !IsLeaf(all[j].doc, p) {
      if j >= |below| + |part| {
        assert all[j] == above[j - |below| - |part|];
      }
    }
  }

  /** The lowest, the middle and the highest part of a stack, and what the document reads of each at `p`. */
  ghost predicate PartsRead(low: seq<Layer>, mid: seq<Layer>, high: seq<Layer>, doc: Value, p: Path, i: int) {
    (LastHolder(high, p, i) && !IsAppendLeaf(high[i].doc, "", p) ==> At(doc, p) == At(high[i].doc, p)) &&
    (LastHolder(mid, p, i) && !IsAppendLeaf(mid[i].doc, "", p) && !Holds(high, p) ==>
       At(doc, p) == At(mid[i].doc, p)) &&
    (LastHolder(low, p, i) && !IsAppendLeaf(low[i].doc, "", p) && !Holds(mid, p) && !Holds(high, p) ==>
       At(doc, p) == At(low[i].doc, p))
  }

  lemma HolderInPart(below: seq<Layer>, part: seq<Layer>, above: seq<Layer>, p: Path, i: int)
    requires KindAgreeing(below + part + above) && p != [] && !Written(p)
    requires LastHolder(part, p, i) && !IsAppendLeaf(part[i].doc, "", p) && !Holds(above, p)
    ensures At(WithBrowserDefaults(Folded(below + part + above)), p) == At(part[i].doc, p)
  {
    HolderAmong(below, part, above, p, i);
    HolderIsRead(below + part + above, p, |below| + i);
  }

  lemma HighestFirst(low: seq<Layer>, mid: seq<Layer>, high: seq<Layer>, p: Path, i: int)
    requires KindAgreeing(low + mid + high) && p != [] && !Written(p)
    ensures PartsRead(low, mid, high, WithBrowserDefaults(Folded(low + mid + high)), p, i)
  {
    if LastHolder(high, p, i) && !IsAppendLeaf(high[i].doc, "", p) {
      assert low + mid + high + [] == low + mid + high;
      HolderInPart(low + mid, high, [], p, i);
    }
    if LastHolder(mid, p, i) && !IsAppendLeaf(mid[i].doc, "", p) && !Holds(high, p) {
      HolderInPart(low, mid, high, p, i);
    }
    if LastHolder(low, p, i) && !IsAppendLeaf(low[i].doc, "", p) && !Holds(mid, p) && !Holds(high, p) {
      assert [] + low + (mid + high) == low + mid + high;
      HoldsNeither(mid, high, p);
      HolderInPart([], low, mid + high, p, i);
    }
  }

  lemma HoldsNeither(mid: seq<Layer>, high: seq<Layer>, p: Path)
    requires !Holds(mid, p) && !Holds(high, p)
    ensures !Holds(mid + high, p)
  {
  }

  /** Overrides beat files, files beat contributions, and among the layers of one part the last holder of a path
      wins it. */
  lemma Precedence(s: Stack, defaults: seq<Contribution>, documentsOnly: bool, p: Path, i: int)
    requires MergedDocument(s, defaults, documentsOnly).Some? && p != [] && !Written(p)
    requires KindAgreeing(Contributions(s, defaults) + Files(s, documentsOnly) + s.overrides)
    ensures PartsRead(Contributions(s, defaults), Files(s, documentsOnly), s.overrides,
                      MergedDocument(s, defaults, documentsOnly).value, p, i)
  {
    PartsAre(s, defaults, documentsOnly);
    HighestFirst(Contributions(s, defaults), Files(s, documentsOnly), s.overrides, p, i);
  }

  /** A resolve merges exactly when every contribution refrains from the settled keys and is valid, and no file of the
      walk is unreadable; and a file can be read that is no module, or a module that refrains when there is a loader. */
  lemma MergesWhen(s: Stack, defaults: seq<Contribution>, documentsOnly: bool, path: string)
    ensures MergedDocument(s, defaults, documentsOnly).Some? <==>
            Phase(s, documentsOnly).Ok? &&
            forall i :: 0 <= i < |defaults| ==>
              SameSettings(defaults[i].payload, BARE) && defaults[i].payload.Obj? &&
              s.schema(NormalizedDoc(defaults[i].payload, s.expand))
    ensures path in DiskOf(s, !documentsOnly).files <==>
            path in s.files &&
            (path in s.modules ==> !documentsOnly && s.files[path].Obj? && SameSettings(s.files[path], BARE))
  {
    forall i | 0 <= i < |defaults| && defaults[i].payload.Obj? {
      RefrainsIsSilent(defaults[i].payload);
    }
    if path in s.files && s.files[path].Obj? {
      RefrainsIsSilent(s.files[path]);
    }
    assert path in DiskOf(s, !documentsOnly).files <==> path in s.files && Read(s, path, !documentsOnly).Some?;
  }
}
