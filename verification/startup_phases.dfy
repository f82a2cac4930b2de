/** Two-phase soundness: what the documents settle before any module is compiled is what the whole stack resolves to
    (crates/ferridriver-config/src/layer.rs: `resolve`; crates/ferridriver-config/src/lib.rs: `Startup`). */
module StartupPhases {
  import opened Json
  import opened LayerMerge
  import opened LayerLedger
  import opened ExtendsWalk
  import opened Paths
  import opened Anchor
  import opened BrowserDefaults
  import opened Startup

  // ---------------------------------------------------------------- the two walks

  /** `d` is the disk without its modules. */
  ghost predicate Restricts(f: Disk, d: Disk, modules: set<string>) {
    d.canon == f.canon &&
    (forall p :: p in d.files <==> p in f.files && p !in modules) &&
    (forall p :: p in d.files ==> d.files[p] == f.files[p])
  }

  /** Every path to the file of `path` reads a silent document and extends nothing that `path` does not. */
  ghost predicate Quiet(f: Disk, silent: set<string>, path: string) {
    path in f.files &&
    forall q :: q in f.files && f.Canonical(q) == f.Canonical(path) ==>
      q in silent && forall id :: f.Names(q, id) ==> f.Names(path, id)
  }

  /** Each module in turn brings quiet files only: itself, and of what it reaches what was not merged before. */
  ghost predicate BringQuiet(f: Disk, modules: set<string>, silent: set<string>, roots: seq<ConfigLayer>, w: Walk)
    decreases |roots|
  {
    if roots == [] then true
    else
      var first := Applied(f, roots[0], w);
      first.Ok? ==>
        (roots[0].path in modules ==> QuietFrom(f, silent, first.value.layers, |w.layers|)) &&
        BringQuiet(f, modules, silent, roots[1..], first.value)
  }

  ghost predicate QuietFrom(f: Disk, silent: set<string>, layers: seq<ConfigLayer>, n: nat) {
    forall i :: n <= i < |layers| ==> Quiet(f, silent, layers[i].path)
  }

  /** Every path to this file is silent, and all it extends has been visited. */
  ghost predicate Caught(f: Disk, silent: set<string>, seen: set<string>, id: string) {
    (exists p :: p in f.files && f.Canonical(p) == id) &&
    forall q :: q in f.files && f.Canonical(q) == id ==> q in silent && forall g :: f.Names(q, g) ==> g in seen
  }

  /** The documents-only walk has merged the same files that are not silent, in the same order, and lacks only
      files that it can visit at any time without a trace. */
  ghost predicate Alike(f: Disk, silent: set<string>, docs: Walk, full: Walk) {
    docs.seen <= full.seen && Without(silent, docs.layers) == Without(silent, full.layers) &&
    forall id :: id in full.seen && id !in docs.seen ==> Caught(f, silent, full.seen, id)
  }

  /** These paths are closed under `extends`, none is a module, and each can be read if any path to its file can. */
  ghost predicate DocumentsReadable(f: Disk, modules: set<string>, own: set<string>) {
    (forall p :: p in own ==> p !in modules) &&
    (forall p, i :: p in own && p in f.files && 0 <= i < |f.files[p].parents| ==> f.files[p].parents[i] in own) &&
    (forall p, q :: p in f.files && f.Canonical(p) == f.Canonical(q) && q in own ==> q in f.files)
  }

  predicate AllOwn(own: set<string>, layers: seq<ConfigLayer>) {
    forall i :: 0 <= i < |layers| ==> layers[i].path in own
  }

  lemma WithoutAppend(paths: set<string>, layers: seq<ConfigLayer>, layer: ConfigLayer)
    ensures Without(paths, layers + [layer]) == Without(paths, layers) + if layer.path in paths then [] else [layer]
  {
    assert (layers + [layer])[..|layers|] == layers;
  }

  lemma ParentsNamed(f: Disk, path: string)
    requires path in f.files
    ensures forall i :: 0 <= i < |f.Parents(path)| ==> f.Names(path, f.Canonical(f.Parents(path)[i].path))
  {
    forall i | 0 <= i < |f.Parents(path)| ensures f.Names(path, f.Canonical(f.Parents(path)[i].path)) {
      assert f.Parents(path)[i].path == f.files[path].parents[i];
    }
  }

  // -------- the documents-only walk visits what the full walk has behind it

  lemma {:induction false} CatchUp(f: Disk, d: Disk, modules: set<string>, silent: set<string>, own: set<string>,
                                   layer: ConfigLayer, docs: Walk, full: Walk)
    requires Restricts(f, d, modules) && Alike(f, silent, docs, full) && f.Canonical(layer.path) in full.seen
    ensures var r := Applied(d, layer, docs);
            (r.Ok? ==> Alike(f, silent, r.value, full)) &&
            (DocumentsReadable(f, modules, own) && layer.path in own ==> r.Ok?)
    decreases d.Unseen(docs.seen), 0
  {
    var id := d.Canonical(layer.path);
    if id !in docs.seen && layer.path in d.files {
      var entered := docs.(seen := docs.seen + {id});
      UnseenShrinks(d, docs.seen, entered.seen);
      ParentsNamed(f, layer.path);
      CatchUpAll(f, d, modules, silent, own, d.Parents(layer.path), entered, full);
      var below := AppliedAll(d, d.Parents(layer.path), entered);
      if below.Ok? {
        WithoutAppend(silent, below.value.layers, layer);
      }
    }
  }

  lemma {:induction false} CatchUpAll(f: Disk, d: Disk, modules: set<string>, silent: set<string>, own: set<string>,
                                      layers: seq<ConfigLayer>, docs: Walk, full: Walk)
    requires Restricts(f, d, modules) && Alike(f, silent, docs, full)
    requires forall i :: 0 <= i < |layers| ==> f.Canonical(layers[i].path) in full.seen
    ensures var r := AppliedAll(d, layers, docs);
            (r.Ok? ==> Alike(f, silent, r.value, full)) &&
            (DocumentsReadable(f, modules, own) && AllOwn(own, layers) ==> r.Ok?)
    decreases d.Unseen(docs.seen), |layers| + 1
  {
    if layers != [] {
      CatchUp(f, d, modules, silent, own, layers[0], docs, full);
      var first := Applied(d, layers[0], docs);
      if first.Ok? {
        UnseenShrinks(d, docs.seen, first.value.seen);
        CatchUpAll(f, d, modules, silent, own, layers[1..], first.value, full);
      }
    }
  }

  // -------- both walks visit a document

  lemma CaughtLater(f: Disk, silent: set<string>, seen: set<string>, more: set<string>, id: string)
    requires Caught(f, silent, seen, id) && seen <= more
    ensures Caught(f, silent, more, id)
  {
  }

  lemma AlikeEntered(f: Disk, silent: set<string>, docs: Walk, full: Walk, id: string)
    requires Alike(f, silent, docs, full)
    ensures Alike(f, silent, docs.(seen := docs.seen + {id}), full.(seen := full.seen + {id}))
  {
    forall g | g in full.seen && g !in docs.seen ensures Caught(f, silent, full.seen + {id}, g) {
      CaughtLater(f, silent, full.seen, full.seen + {id}, g);
    }
  }

  lemma {:induction false} SameWalk(f: Disk, d: Disk, modules: set<string>, silent: set<string>, own: set<string>,
                                    layer: ConfigLayer, docs: Walk, full: Walk)
    requires Restricts(f, d, modules) && Alike(f, silent, docs, full) && Applied(f, layer, full).Ok?
    ensures var r := Applied(d, layer, docs);
            (r.Ok? ==> Alike(f, silent, r.value, Applied(f, layer, full).value)) &&
            (DocumentsReadable(f, modules, own) && layer.path in own ==> r.Ok?)
    decreases f.Unseen(full.seen), 0
  {
    var id := f.Canonical(layer.path);
    if id in full.seen {
      CatchUp(f, d, modules, silent, own, layer, docs, full);
    } else if layer.path !in modules {
      var entered, docsEntered := full.(seen := full.seen + {id}), docs.(seen := docs.seen + {id});
      UnseenShrinks(f, full.seen, entered.seen);
      AlikeEntered(f, silent, docs, full, id);
      SameWalkAll(f, d, modules, silent, own, f.Parents(layer.path), docsEntered, entered);
      assert d.Parents(layer.path) == f.Parents(layer.path);
      var below, docsBelow :=
        AppliedAll(f, f.Parents(layer.path), entered), AppliedAll(d, f.Parents(layer.path), docsEntered);
      WithoutAppend(silent, below.value.layers, layer);
      if docsBelow.Ok? {
        WithoutAppend(silent, docsBelow.value.layers, layer);
      }
    }
  }

  lemma {:induction false} SameWalkAll(f: Disk, d: Disk, modules: set<string>, silent: set<string>, own: set<string>,
                                       layers: seq<ConfigLayer>, docs: Walk, full: Walk)
    requires Restricts(f, d, modules) && Alike(f, silent, docs, full) && AppliedAll(f, layers, full).Ok?
    ensures var r := AppliedAll(d, layers, docs);
            (r.Ok? ==> Alike(f, silent, r.value, AppliedAll(f, layers, full).value)) &&
            (DocumentsReadable(f, modules, own) && AllOwn(own, layers) ==> r.Ok?)
    decreases f.Unseen(full.seen), |layers| + 1
  {
    if layers != [] {
      SameWalk(f, d, modules, silent, own, layers[0], docs, full);
      var first, docsFirst := Applied(f, layers[0], full).value, Applied(d, layers[0], docs);
      UnseenShrinks(f, full.seen, first.seen);
      if docsFirst.Ok? {
        SameWalkAll(f, d, modules, silent, own, layers[1..], docsFirst.value, first);
      }
    }
  }

  // -------- the full walk visits a module

  /** Whatever a walk enters it lists, with all it extends visited. */
  ghost predicate Listed(f: Disk, before: Walk, after: Walk) {
    forall id :: id in after.seen && id !in before.seen ==> exists i :: ListedAt(f, before, after, i, id)
  }

  ghost predicate ListedAt(f: Disk, before: Walk, after: Walk, i: int, id: string) {
    |before.layers| <= i < |after.layers| && after.layers[i].path in f.files &&
    f.Canonical(after.layers[i].path) == id &&
    forall g :: f.Names(after.layers[i].path, g) ==> g in after.seen
  }

  lemma ListedLater(f: Disk, before: Walk, between: Walk, after: Walk)
    requires Listed(f, before, between) && Listed(f, between, after)
    requires between.seen <= after.seen && between.layers <= after.layers && before.layers <= between.layers
    ensures Listed(f, before, after)
  {
    forall id | id in after.seen && id !in before.seen ensures exists i :: ListedAt(f, before, after, i, id) {
      if id in between.seen {
        var i :| ListedAt(f, before, between, i, id);
        assert ListedAt(f, before, after, i, id);
      } else {
        var i :| ListedAt(f, between, after, i, id);
        assert ListedAt(f, before, after, i, id);
      }
    }
  }

  lemma {:induction false} EnteredIsListed(f: Disk, layer: ConfigLayer, w: Walk)
    requires Applied(f, layer, w).Ok?
    ensures f.Canonical(layer.path) in Applied(f, layer, w).value.seen
    ensures Listed(f, w, Applied(f, layer, w).value)
    decreases f.Unseen(w.seen), 0
  {
    var id := f.Canonical(layer.path);
    if id !in w.seen {
      var entered := w.(seen := w.seen + {id});
      UnseenShrinks(f, w.seen, entered.seen);
      AllEnteredAreListed(f, f.Parents(layer.path), entered);
      var below, after := AppliedAll(f, f.Parents(layer.path), entered).value, Applied(f, layer, w).value;
      LastIsListed(f, layer, w, below, after);
    }
  }

  lemma LastIsListed(f: Disk, layer: ConfigLayer, w: Walk, below: Walk, after: Walk)
    requires layer.path in f.files && w.layers <= below.layers
    requires after == below.(layers := below.layers + [layer])
    requires Listed(f, w.(seen := w.seen + {f.Canonical(layer.path)}), below)
    requires forall i :: 0 <= i < |f.Parents(layer.path)| ==> f.Canonical(f.Parents(layer.path)[i].path) in below.seen
    ensures Listed(f, w, after)
  {
    var entered := w.(seen := w.seen + {f.Canonical(layer.path)});
    forall g | f.Names(layer.path, g) ensures g in after.seen {
      var i :| 0 <= i < |f.files[layer.path].parents| && f.Canonical(f.files[layer.path].parents[i]) == g;
      assert f.Parents(layer.path)[i].path == f.files[layer.path].parents[i];
    }
    forall id | id in after.seen && id !in w.seen ensures exists i :: ListedAt(f, w, after, i, id) {
      if id == f.Canonical(layer.path) {
        assert ListedAt(f, w, after, |below.layers|, id);
      } else {
        var i :| ListedAt(f, entered, below, i, id);
        assert ListedAt(f, w, after, i, id);
      }
    }
  }

  lemma {:induction false} AllEnteredAreListed(f: Disk, layers: seq<ConfigLayer>, w: Walk)
    requires AppliedAll(f, layers, w).Ok?
    ensures var after := AppliedAll(f, layers, w).value;
            Listed(f, w, after) && forall i :: 0 <= i < |layers| ==> f.Canonical(layers[i].path) in after.seen
    decreases f.Unseen(w.seen), |layers| + 1
  {
    if layers != [] {
      var first := Applied(f, layers[0], w).value;
      UnseenShrinks(f, w.seen, first.seen);
      EnteredIsListed(f, layers[0], w);
      AllEnteredAreListed(f, layers[1..], first);
      ListedLater(f, w, first, AppliedAll(f, layers, w).value);
    }
  }

  lemma {:induction false} WithoutTail(paths: set<string>, a: seq<ConfigLayer>, b: seq<ConfigLayer>)
    requires a <= b && forall i :: |a| <= i < |b| ==> b[i].path in paths
    ensures Without(paths, b) == Without(paths, a)
    decreases |b|
  {
    if |a| < |b| {
      WithoutTail(paths, a, b[..|b| - 1]);
    } else {
      assert a == b;
    }
  }

  /** A module that brings quiet files only leaves the two walks alike. */
  lemma ModuleWalk(f: Disk, silent: set<string>, layer: ConfigLayer, docs: Walk, full: Walk)
    requires Alike(f, silent, docs, full) && Applied(f, layer, full).Ok?
    requires QuietFrom(f, silent, Applied(f, layer, full).value.layers, |full.layers|)
    ensures Alike(f, silent, docs, Applied(f, layer, full).value)
  {
    var after := Applied(f, layer, full).value;
    EnteredIsListed(f, layer, full);
    forall i | |full.layers| <= i < |after.layers| ensures after.layers[i].path in silent {
      assert Quiet(f, silent, after.layers[i].path);
    }
    WithoutTail(silent, full.layers, after.layers);
    forall id | id in after.seen && id !in docs.seen ensures Caught(f, silent, after.seen, id) {
      if id in full.seen {
        CaughtLater(f, silent, full.seen, after.seen, id);
      } else {
        var i :| ListedAt(f, full, after, i, id);
        assert Quiet(f, silent, after.layers[i].path);
      }
    }
  }

  lemma {:induction false} WithoutFirst(paths: set<string>, first: ConfigLayer, rest: seq<ConfigLayer>)
    ensures Without(paths, [first] + rest) == (if first.path in paths then [] else [first]) + Without(paths, rest)
  {
    var all := [first] + rest;
    if rest == [] {
      assert all[..0] == [];
    } else {
      WithoutFirst(paths, first, rest[..|rest| - 1]);
      assert all[..|all| - 1] == [first] + rest[..|rest| - 1];
    }
  }

  /** The walk over the documents among the roots stays alike the walk over all of them; and it succeeds when the
      documents can be read by themselves. */
  lemma {:induction false} SameRootWalk(f: Disk, d: Disk, modules: set<string>, silent: set<string>, own: set<string>,
                                        roots: seq<ConfigLayer>, docs: Walk, full: Walk)
    requires Restricts(f, d, modules) && Alike(f, silent, docs, full) && AppliedAll(f, roots, full).Ok?
    requires BringQuiet(f, modules, silent, roots, full)
    ensures var r := AppliedAll(d, Without(modules, roots), docs);
            (r.Ok? ==> Alike(f, silent, r.value, AppliedAll(f, roots, full).value)) &&
            (DocumentsReadable(f, modules, own) && AllOwn(own, Without(modules, roots)) ==> r.Ok?)
    decreases |roots|
  {
    if roots != [] {
      var root, rest := roots[0], roots[1..];
      var first := Applied(f, root, full).value;
      assert roots == [root] + rest;
      WithoutFirst(modules, root, rest);
      if root.path in modules {
        ModuleWalk(f, silent, root, docs, full);
        SameRootWalk(f, d, modules, silent, own, rest, docs, first);
        assert Without(modules, roots) == Without(modules, rest);
      } else {
        SameWalk(f, d, modules, silent, own, root, docs, full);
        var docsFirst := Applied(d, root, docs);
        if docsFirst.Ok? {
          SameRootWalk(f, d, modules, silent, own, rest, docsFirst.value, first);
        }
        WalkFirst(d, root, Without(modules, rest), docs);
      }
    }
  }

  lemma OneRoot(d: Disk, root: ConfigLayer, w: Walk)
    ensures AppliedAll(d, [root], w) == Applied(d, root, w)
  {
    assert [root][1..] == [];
  }

  lemma WalkFirst(d: Disk, root: ConfigLayer, rest: seq<ConfigLayer>, w: Walk)
    ensures AppliedAll(d, [root] + rest, w) ==
            var first := Applied(d, root, w);
            if first.Err? then first else AppliedAll(d, rest, first.value)
  {
    assert ([root] + rest)[1..] == rest;
  }

  // -------- a condition on the files alone

  /** Paths closed under `extends`, each quiet where it can be read. */
  ghost predicate ClosedQuiet(f: Disk, silent: set<string>, brought: set<string>) {
    forall p :: p in brought && p in f.files ==>
      Quiet(f, silent, p) && forall i :: 0 <= i < |f.files[p].parents| ==> f.files[p].parents[i] in brought
  }

  ghost predicate AllIn(f: Disk, paths: set<string>, layers: seq<ConfigLayer>, n: nat) {
    forall i :: n <= i < |layers| ==> layers[i].path in paths && layers[i].path in f.files
  }

  lemma {:induction false} StaysIn(f: Disk, silent: set<string>, brought: set<string>, layer: ConfigLayer, w: Walk)
    requires ClosedQuiet(f, silent, brought) && layer.path in brought && Applied(f, layer, w).Ok?
    ensures AllIn(f, brought, Applied(f, layer, w).value.layers, |w.layers|)
    decreases f.Unseen(w.seen), 0
  {
    var id := f.Canonical(layer.path);
    if id !in w.seen {
      var entered := w.(seen := w.seen + {id});
      UnseenShrinks(f, w.seen, entered.seen);
      forall i | 0 <= i < |f.Parents(layer.path)| ensures f.Parents(layer.path)[i].path in brought {
        assert f.Parents(layer.path)[i].path == f.files[layer.path].parents[i];
      }
      AllStayIn(f, silent, brought, f.Parents(layer.path), entered);
    }
  }

  lemma {:induction false} AllStayIn(f: Disk, silent: set<string>, brought: set<string>, layers: seq<ConfigLayer>,
                                     w: Walk)
    requires ClosedQuiet(f, silent, brought) && AppliedAll(f, layers, w).Ok?
    requires forall i :: 0 <= i < |layers| ==> layers[i].path in brought
    ensures AllIn(f, brought, AppliedAll(f, layers, w).value.layers, |w.layers|)
    decreases f.Unseen(w.seen), |layers| + 1
  {
    if layers != [] {
      var first := Applied(f, layers[0], w).value;
      UnseenShrinks(f, w.seen, first.seen);
      StaysIn(f, silent, brought, layers[0], w);
      AllStayIn(f, silent, brought, layers[1..], first);
    }
  }

  /** Modules bring quiet files only, in any stack and at any place in it, when they and all they reach are quiet. */
  lemma {:induction false} ClosedBringsQuiet(f: Disk, modules: set<string>, silent: set<string>, brought: set<string>,
                                             roots: seq<ConfigLayer>, w: Walk)
    requires ClosedQuiet(f, silent, brought)
    requires forall i :: 0 <= i < |roots| && roots[i].path in modules ==> roots[i].path in brought
    ensures BringQuiet(f, modules, silent, roots, w)
    decreases |roots|
  {
    if roots != [] {
      var first := Applied(f, roots[0], w);
      if first.Ok? {
        if roots[0].path in modules {
          StaysIn(f, silent, brought, roots[0], w);
        }
        ClosedBringsQuiet(f, modules, silent, brought, roots[1..], first.value);
      }
    }
  }

  // ---------------------------------------------------------------- the two phases

  function Silents(s: Stack): set<string> {
    set p | p in s.files && Silent(s.files[p])
  }

  /** What each module brings, itself and the files only it reaches, sets no settled key and keeps `test` a table. */
  ghost predicate ModulesBringSilence(s: Stack) {
    BringQuiet(DiskOf(s, true), s.modules, Silents(s), s.discovered, Walk({}, []))
  }

  /** The documents can be read by themselves: none that is discovered, nor any they reach, is a module or at an
      unreadable path to a readable file. */
  ghost predicate DocumentsStandAlone(s: Stack) {
    exists own :: DocumentsReadable(DiskOf(s, true), s.modules, own) && AllOwn(own, Roots(s, true))
  }

  /** The walk of one phase. */
  function Phase(s: Stack, documentsOnly: bool): Result<Walk, string> {
    AppliedAll(DiskOf(s, !documentsOnly), Roots(s, documentsOnly), Walk({}, []))
  }

  lemma LoaderAddsModules(s: Stack)
    ensures Restricts(DiskOf(s, true), DiskOf(s, false), s.modules)
  {
    forall p ensures p in DiskOf(s, false).files <==> p in DiskOf(s, true).files && p !in s.modules {
      assert p in DiskOf(s, false).files <==> p in s.files && Read(s, p, false).Some?;
      assert p in DiskOf(s, true).files <==> p in s.files && Read(s, p, true).Some?;
    }
  }

  lemma SilentLayer(s: Stack, path: string)
    requires path in DiskOf(s, true).files
    ensures Silent(DiskOf(s, true).files[path].doc) <==> path in Silents(s)
  {
    PreparedAsSilent(s.files[path], s.expand, Place(s.dir(path), s.home));
  }

  lemma DefaultsSetNothing(s: Stack, defaults: seq<Contribution>)
    requires forall i :: 0 <= i < |defaults| ==> Contributes(s, defaults[i].payload)
    ensures SameSettings(BARE, Folded(DefaultLayers(s, defaults)))
  {
    forall i | 0 <= i < |defaults| ensures SameSettings(DefaultLayers(s, defaults)[i].doc, BARE) {
      RefrainsIsSilent(defaults[i].payload);
      NormalizedAsSilent(defaults[i].payload, s.expand);
    }
    NothingFolded(DefaultLayers(s, defaults));
  }

  lemma {:induction false} MergedFilesAreRead(d: Disk, roots: seq<ConfigLayer>, w: Walk)
    requires AppliedAll(d, roots, w).Ok?
    requires forall i :: 0 <= i < |w.layers| ==> w.layers[i].path in d.files
    ensures var layers := AppliedAll(d, roots, w).value.layers;
            forall i :: 0 <= i < |layers| ==> layers[i].path in d.files
    decreases d.Unseen(w.seen), |roots|
  {
    if roots != [] {
      var first := Applied(d, roots[0], w).value;
      var id := d.Canonical(roots[0].path);
      UnseenShrinks(d, w.seen, first.seen);
      if id !in w.seen {
        var entered := w.(seen := w.seen + {id});
        UnseenShrinks(d, w.seen, entered.seen);
        MergedFilesAreRead(d, d.Parents(roots[0].path), entered);
      }
      MergedFilesAreRead(d, roots[1..], first);
    }
  }

  /** Below the same layers that are not silent the settings are the same, with any silent layers among them. */
  lemma LoudLayersDecide(s: Stack, below1: seq<Layer>, below2: seq<Layer>, files: seq<ConfigLayer>)
    requires SameSettings(Folded(below1), Folded(below2))
    requires forall i :: 0 <= i < |files| ==> files[i].path in DiskOf(s, true).files
    ensures var f := DiskOf(s, true);
            SameSettings(Folded(below1 + LayersOf(f, Without(Silents(s), files))), Folded(below2 + LayersOf(f, files)))
  {
    forall i | 0 <= i < |files| && files[i].path in Silents(s)
      ensures Silent(LayerOf(DiskOf(s, true), files[i]).doc)
    {
      SilentLayer(s, files[i].path);
    }
    DroppingSilent(DiskOf(s, true), Silents(s), below1, below2, files);
  }

  lemma SameLayersOf(f: Disk, d: Disk, modules: set<string>, layers: seq<ConfigLayer>)
    requires Restricts(f, d, modules) && forall i :: 0 <= i < |layers| ==> layers[i].path in d.files
    ensures LayersOf(d, layers) == LayersOf(f, layers)
  {
  }

  /** The walks of the two phases; the second is known to succeed. */
  lemma PhasesWalkAlike(s: Stack)
    requires ModulesBringSilence(s) && Phase(s, false).Ok?
    ensures Phase(s, true).Ok? ==> Alike(DiskOf(s, true), Silents(s), Phase(s, true).value, Phase(s, false).value)
    ensures DocumentsStandAlone(s) ==> Phase(s, true).Ok?
  {
    var f, d := DiskOf(s, true), DiskOf(s, false);
    LoaderAddsModules(s);
    if own :| DocumentsReadable(f, s.modules, own) && AllOwn(own, Roots(s, true)) {
      SameRootWalk(f, d, s.modules, Silents(s), own, s.discovered, Walk({}, []), Walk({}, []));
    } else {
      SameRootWalk(f, d, s.modules, Silents(s), {}, s.discovered, Walk({}, []), Walk({}, []));
    }
  }

  lemma FilesFoldAlike(s: Stack, below1: seq<Layer>, below2: seq<Layer>)
    requires ModulesBringSilence(s) && Phase(s, false).Ok? && Phase(s, true).Ok?
    requires SameSettings(Folded(below1), Folded(below2))
    ensures SameSettings(Folded(below1 + LayersOf(DiskOf(s, false), Phase(s, true).value.layers)),
                         Folded(below2 + LayersOf(DiskOf(s, true), Phase(s, false).value.layers)))
  {
    var f, d := DiskOf(s, true), DiskOf(s, false);
    var docs, full := Phase(s, true).value.layers, Phase(s, false).value.layers;
    PhasesWalkAlike(s);
    LoaderAddsModules(s);
    MergedFilesAreRead(d, Roots(s, true), Walk({}, []));
    MergedFilesAreRead(f, Roots(s, false), Walk({}, []));
    SameLayersOf(f, d, s.modules, docs);
    LoudLayersDecide(s, below1, below1, docs);
    LoudLayersDecide(s, below1, below2, full);
  }

  /** When both phases merge, they merge to the same settings; and when the whole stack merges, the documents alone
      merge if they can be read by themselves. */
  lemma PhasesMergeAlike(s: Stack, early: seq<Contribution>, late: seq<Contribution>)
    requires ModulesBringSilence(s)
    requires MergedDocument(s, late, false).Some?
    ensures MergedDocument(s, early, true).Some? ==>
              SameSettings(MergedDocument(s, early, true).value, MergedDocument(s, late, false).value)
    ensures DocumentsStandAlone(s) && (forall i :: 0 <= i < |early| ==> Contributes(s, early[i].payload)) ==>
              MergedDocument(s, early, true).Some?
  {
    PhasesWalkAlike(s);
    if MergedDocument(s, early, true).Some? {
      DefaultsSetNothing(s, early);
      DefaultsSetNothing(s, late);
      var below1, below2 := DefaultLayers(s, early), DefaultLayers(s, late);
      FilesFoldAlike(s, below1, below2);
      var files1 := LayersOf(DiskOf(s, false), Phase(s, true).value.layers);
      var files2 := LayersOf(DiskOf(s, true), Phase(s, false).value.layers);
      SameOverrides(below1 + files1, below2 + files2, s.overrides);
      BrowserDefaultsKeepSettings(Folded(below1 + files1 + s.overrides));
      BrowserDefaultsKeepSettings(Folded(below2 + files2 + s.overrides));
    }
  }

  /** Two-phase soundness. When what the modules bring is silent and the whole stack resolves, then the documents
      alone, if they resolve, settle what the whole stack resolves to, under any contributions of either phase; and
      they resolve, if they can be read by themselves, exactly when their own merged document is accepted. */
  lemma PhasesAgree(s: Stack, early: seq<Contribution>, late: seq<Contribution>)
    requires ModulesBringSilence(s)
    ensures Resolved(s, late, false).Some? && Resolved(s, early, true).Some? ==>
              forall i :: 0 <= i < |SETTLED| ==>
                At(Resolved(s, early, true).value, SETTLED[i]) == At(Resolved(s, late, false).value, SETTLED[i])
    ensures Resolved(s, late, false).Some? && DocumentsStandAlone(s) &&
            (forall i :: 0 <= i < |early| ==> Contributes(s, early[i].payload)) ==>
              MergedDocument(s, early, true).Some? &&
              (Resolved(s, early, true).Some? <==> s.accepts(MergedDocument(s, early, true).value))
  {
    if Resolved(s, late, false).Some? {
      PhasesMergeAlike(s, early, late);
      if Resolved(s, early, true).Some? {
        SameSettingsAt(MergedDocument(s, early, true).value, MergedDocument(s, late, false).value);
      }
    }
  }

  // ---------------------------------------------------------------- one resolve without contributions

  lemma MergedAs(s: Stack, documentsOnly: bool, layers: seq<Layer>)
    requires s.overrides == [] && Phase(s, documentsOnly).Ok?
    requires LayersOf(DiskOf(s, !documentsOnly), Phase(s, documentsOnly).value.layers) == layers
    ensures MergedDocument(s, [], documentsOnly) == Some(WithBrowserDefaults(Folded(layers)))
  {
    assert DefaultLayers(s, []) == [];
    assert [] + layers + s.overrides == layers;
  }

  lemma ResolvedAs(s: Stack, documentsOnly: bool, doc: Value)
    requires MergedDocument(s, [], documentsOnly) == Some(doc)
    ensures Resolved(s, [], documentsOnly) == if s.accepts(doc) then Some(doc) else None
  {
  }

  /** Both phases resolve, to the same settings. */
  ghost predicate SettleAlike(s: Stack) {
    var docs, full := Resolved(s, [], true), Resolved(s, [], false);
    docs.Some? && full.Some? && SameSettings(docs.value, full.value)
  }

  lemma SettlesTo(s: Stack, a: Value, b: Value)
    requires MergedDocument(s, [], true) == Some(WithBrowserDefaults(a)) && s.accepts(WithBrowserDefaults(a))
    requires MergedDocument(s, [], false) == Some(WithBrowserDefaults(b)) && s.accepts(WithBrowserDefaults(b))
    ensures SettleAlike(s) <==> SameSettings(a, b)
  {
    BrowserDefaultsKeepSettings(a);
    BrowserDefaultsKeepSettings(b);
  }
}
